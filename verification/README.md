# LiteIAM: Dafny models of the authentication server's state machines

LiteIAM is a multi-tenant authentication and OAuth server. Its hard parts are state machines over database rows,
clocks and per-worker caches. This project models them in Dafny and proves what they promise - or, where the code
keeps less than it promises, exactly when it keeps it.

Two styles are used side by side. Where the program changes rows or module globals step by step, a class has the
same fields and its methods are proved against functions on values; theorems about those functions then speak of
whole runs. Where requests interleave at their awaits, the component is a transition system whose steps are the
stretches between awaits, and theorems hold for every interleaving.

Beside the theorems about runs stand exact statements about single steps: when a request succeeds, in terms of the
request and the stored rows, and what it changes (`Delivery`, `SignInSteps`, `GrantDecisions`, `TokenRevocation`,
`OtpTraces`, and lemmas named after their condition elsewhere).

| file | component | runs |
|---|---|---|
| `Revocation`, `RevocationSet`, `Delivery`, `Orphans` | token blacklist: table, NOTIFY queues, one set per worker, delivery, pruning | interleaved |
| `OAuthStore`, `OAuthHandlers`, `TokenFamilies`, `Grants`, `GrantDecisions`, `TokenRevocation`, `Scopes` | authorization codes, refresh-token families, revocation | serialised |
| `SigningKeys`, `KeyLifetimes`, `KeyManagers`, `JwksCache`, `Base64Url` | signing keys, daily rotation, JWKS document, integer encoding | per worker |
| `SecondFactor`, `SignInSteps`, `SignIn`, `TrustedDevices`, `Lockout`, `OneTimeCodes`, `Accounts` | sign-in gate, trusted devices, lockouts, TOTP and backup codes | serialised |
| `EmailOtp`, `OtpTraces`, `OtpGuesses`, `OtpEndpoint` | e-mail sign-in codes | interleaved |
| `PasswordHistory`, `LoginSessions`, `RegRateLimit`, `ClaimsCache`, `OAuthState` | password history, session cap, rate counter, claims cache, signed state | serialised / interleaved |

Conventions. Wall-clock times are whole microseconds, monotonic times are reals. Random values, clocks, query
results and the answers of libraries are parameters of the steps. Cryptography is ideal: a hash is represented by
its preimage, a signed token or cookie is accepted only if it was handed out, an Argon2 hash verifies only the
password it was made from. Fields described as history never influence a step; they only let theorems speak of the past.

Readings of the source that the models rely on:

- Some queries test `not X.col` or `X.col is None` on mapped attributes, which Python evaluates before the database
  sees them. The models take the evident intent (`used = false`, `revoked = false`, `used_at IS NULL`, as the
  comment at app/api/v1/email_otp.py:122-125 says). This concerns app/server/endpoints.py:207,
  app/api/v1/email_otp.py:102 and 128, app/api/v1/magic_link.py:112 and app/api/v1/sessions.py:57, 141 and 152.
- A request's session is rolled back by any exception (app/core/database.py:41-47). A failed flush leaves the
  session unusable until a rollback, so a handler that swallows the exception ends in a server error at its next query.
- The rotation check never commits its session (app/tokens/scheduler.py:48-69); only the new key's own session commits.

Where the code and its documentation disagree, the models follow the code:

- A rolled-back revocation is not forgotten by the worker that tried it (`Revocation.UncommittedIsLocal`).
- The hourly prune does not reach every expired entry; exactly which it never reaches is `Orphans.StaysIffStuck`.
- `revoke` does not always answer 200; it does exactly as `TokenFamilies.RevokeSucceedsIff` and `RevokeTwice` say.
- The password history remembers one password fewer than configured (`PasswordHistory.PromiseKeptIff`, `PromiseBroken`).
- TOTP replay protection covers only the last accepted code (`OneTimeCodes.ReplayRejectedIffLast`).
- The Google callback ignores the tenant's MFA mandate (`SecondFactor.MandateGate`).
- Rotation leaves several current rows (`SigningKeys.OneCurrentRow`), so a check may look at the wrong one. A token verifies
  until it expires exactly under the condition of `KeyLifetimes.SignedTokenIff`; `DailyChecksLoseToken` is a worker that
  checks daily and still loses one.
- Workers do not reload keys made by others, as app/tokens/scheduler.py:13 says they do (`KeyLifetimes.OtherWorkersKeyIff`).
- Invalidating the JWKS cache has no effect in the first thirty seconds of the clock (`JwksCache.FirstResponseAfterRotation`).
- A load in flight can put old claims back after an invalidation (`ClaimsCache.FreshAfterInvalidation`).
- The wrong-code limit of an e-mail code holds only while guesses do not overlap (`OtpGuesses.LimitHoldsIff`,
  `FiveGuessesWithoutOverlap`, `AnyNumberOfGuesses`, `StaleCountLowers`).
- The session cap can be exceeded by overlapping logins (`LoginSessions.CapIff`, `OverlappingCallsOvershoot`).
- A consumed OAuth state is accepted again in a window of up to a second (`OAuthState.ConsumedNonceRejected`, `WindowReached`).

## Model

| member | source | states |
|---|---|---|
| Revocation.PruningIsInvisible | app/tokens/revocation.py:110-122 | In every interleaving, a worker that prunes gives each genuine access token the same accept/reject answer, at every moment, as its twin in the run where nothing is ever taken out of a set |
| Revocation.KeepingRun | app/tokens/revocation.py:42-128 | Every run of the protocol is matched step by step by the run that never prunes sets, and both end in the same world up to the sets' contents |
| Revocation.StartupLoadsTheLog | app/tokens/revocation.py:63-77 | Deleting expired rows never changes what a starting worker loads: the unexpired rows are the unexpired part of everything ever committed |
| Revocation.DeliveredQueuedOrMissed | app/tokens/revocation.py:80-92 | A committed revocation of an unexpired token that a started worker does not enforce is in that worker's queue or among what it missed, which is exactly what `Delivery.MissedIsGap` says |
| Revocation.QuietFleetRejects | app/tokens/revocation.py:125-128 | With empty queues and nothing missed, in the sense of `Delivery.MissedIsGap`, every started worker rejects every revoked token |
| Delivery.CommitReachesListeners | app/tokens/revocation.py:80-92 | A commit puts exactly the transaction's entries into the table and into the queue of every worker that listens, and changes no set |
| Delivery.QueuedIff | app/tokens/revocation.py:80-108 | After any step a notification is in a worker's queue if and only if it was committed then while the worker listened, or was there and has neither been delivered nor lost with the listener or a restart |
| Delivery.SetIff | app/tokens/revocation.py:42-122 | After any step an entry is in a worker's set if and only if the worker then revoked it itself, took its delivery or loaded its unexpired row, or it was there and no prune or restart took it out |
| Delivery.RowIff | app/tokens/revocation.py:42-122 | A row with a given expiry is in the table after a step if and only if it is committed then, or was there and is not deleted as expired |
| Delivery.OpenIff | app/core/database.py:41-47 | A transaction stays open with its inserts exactly until it commits, rolls back, meets a duplicate or its worker ends |
| Delivery.LogIsCommitted | app/tokens/revocation.py:42-60 | In every run the log holds exactly the entries that some commit step inserted |
| Delivery.MissedIsGap | app/tokens/revocation.py:63-108 | In every run a worker has missed an entry if and only if, since its last start, the entry was committed while no listener was attached, the start-up load failed to find its active row, or the listener failed with it queued |
| Delivery.AcceptedOnlyThroughGap | app/tokens/revocation.py:80-92 | In every run a started worker that accepts a token whose revocation was committed has the notification queued, or the revocation fell into such a gap since the worker's last start |
| Delivery.QuietFleetWithoutGaps | app/tokens/revocation.py:125-128 | In every run, when no notification is waiting and there was no gap, every started worker rejects a token whose revocation was committed |
| Delivery.ListenerRejects | app/tokens/revocation.py:42-92 | A worker that listens at the commit of a revocation, and goes on listening, rejects the token at every later moment at which the notification is not still queued |
| Delivery.UnrevokedAccepted | app/tokens/strategy.py:94-137 | In every run every worker accepts a complete, unexpired token that no request has tried to revoke |
| Delivery.NeverAccepted | app/tokens/strategy.py:94-137 | Whatever a worker's set holds, it accepts no token that has expired or is not complete |
| Revocation.UncommittedIsLocal | app/tokens/revocation.py:6-10 | An unexpired token whose revocation never committed is blacklisted on a worker if and only if that worker itself served the request that tried |
| Revocation.RolledBackRevocationStillRejects | app/tokens/revocation.py:56-60 | A run in which a worker rejects a live token although its revocation was rolled back |
| Orphans.PruneRemovesIff | app/tokens/revocation.py:110-120 | Whatever happens between the two halves of a prune, an entry held at the fetch leaves the set if and only if its row was in the table and expired at the fetch |
| Orphans.LeavesOnlyThroughFetch | app/tokens/revocation.py:110-120 | While a worker runs, an entry leaves its set only through a fetch made while its expired row was there |
| Orphans.StaysIffStuck | app/tokens/revocation.py:94-102 | An entry stays in a running worker's set in every continuation without a restart or a new revocation if and only if it is stuck: no row of it is left or pending, or the worker's listener has died, and no prune under way has fetched it |
| Orphans.StuckAfterDelete | app/tokens/revocation.py:112-119 | When another worker deletes the expired row, an entry is stuck exactly on the workers that hold and have not fetched it |
| Orphans.StuckAfterRollback | app/tokens/revocation.py:56-60 | When the revoking transaction is rolled back, the entry is stuck on the worker that served it, unless a prune under way there has fetched it |
| Orphans.StuckByPruneReachable | app/tokens/revocation.py:110-122 | A run from an empty database in which another worker's prune leaves an entry stuck |
| Orphans.StuckByRollbackReachable | app/tokens/revocation.py:42-60 | A run from an empty database in which a rollback leaves an entry stuck |
| Revocation.InvStep | app/tokens/revocation.py:42-128 | Each step keeps the invariant tying table, log, queues, sets and open transactions together |
| Revocation.InvReachable | app/tokens/revocation.py:42-128 | The invariant holds in every reachable world |
| RevocationSet.RevokedJtis.IsRevoked | app/tokens/revocation.py:38-39 | For an unexpired access token the answer is that of the ever-growing log of what the worker has heard of, however much has been pruned |
| RevocationSet.RevokedJtis.RevokeToken | app/tokens/revocation.py:42-60 | A duplicate key leaves the set untouched; otherwise the insert is pending and the set has grown by the entry, as in the protocol's step |
| RevocationSet.RevokedJtis.LoadActive | app/tokens/revocation.py:63-77 | Afterwards the set additionally holds exactly the unexpired rows, and an empty set has become that of a started worker |
| RevocationSet.RevokedJtis.OnRevoke | app/tokens/revocation.py:86-91 | A set that is the worker's before a delivery is the worker's after it |
| RevocationSet.RevokedJtis.PruneExpired | app/tokens/revocation.py:110-120 | Exactly the expired rows' entries leave the set, as in the protocol's two steps, and rows are deleted only if there were any |
| OAuthHandlers.TokenServer.Authorize | app/server/endpoints.py:73-133 | A code comes back exactly for an active, auto-approved client with a registered redirect URI, the code response and grant type, allowed scopes and a challenge if required; then exactly that code is stored, for sixty seconds, and otherwise nothing; families stay chains |
| OAuthHandlers.TokenServer.Consent | app/server/endpoints.py:565-600 | A code comes back exactly for an active client with a registered redirect URI, allowed scopes and a challenge if required; then exactly that code is stored, for sixty seconds, and otherwise nothing; families stay chains |
| OAuthHandlers.TokenServer.HandleCodeGrant | app/server/endpoints.py:192-277 | Succeeds exactly if client and code are in order, as in `GrantDecisions.CodeGrantIff`; reply and committed tables; an inactive user rolls the used mark back |
| OAuthHandlers.TokenServer.HandleRefreshGrant | app/server/endpoints.py:310-391 | Succeeds exactly if a live row of the client bears the token, as in `GrantDecisions.RefreshGrantIff`; reply and committed tables, including the family revocation committed before the error |
| OAuthHandlers.TokenServer.RevokeToken | app/server/endpoints.py:479-530 | Fails exactly for a listed jti, changing nothing; otherwise exactly the jti is listed and exactly the first row whose access or refresh token is the presented one is revoked |
| OAuthHandlers.TokenServer.EndSession | app/api/v1/sessions.py:76-129 | Not found exactly unless the row is the user's own; a success revokes exactly that row and lists exactly its jti |
| OAuthHandlers.TokenServer.EndAllSessions | app/api/v1/sessions.py:132-183 | Ending all sessions revokes every live row of the user and blacklists every jti, or nothing at all if one jti is already listed |
| OAuthHandlers.TokenServer.ListAll | app/api/v1/sessions.py:162-179 | The loop spoils the session exactly when one of the jtis is already listed, and otherwise lists them all |
| GrantDecisions.CodeGrantIff | app/server/endpoints.py:192-277 | A code grant succeeds if and only if the client authenticates and the code is its own, unused, unexpired, for that redirect URI and proof key, of an active user; it then uses the code and adds one row, whose tokens are the answer's, with a 30-day refresh token exactly if the scope string contains "offline_access"; otherwise nothing is stored |
| GrantDecisions.GrantSucceedsIffDue | app/server/endpoints.py:114-277 | In every run a code grant succeeds if and only if the code was the answer to a request of the run at most 60 s old by this client for this redirect URI, is unused, the client authenticates and proves its key, and the user who asked is active |
| GrantDecisions.AnsweredCodeOnRecord | app/server/endpoints.py:114-128 | In every run a code that was the answer to a request is on record with exactly the requested values and sixty seconds of life |
| GrantDecisions.RefreshGrantIff | app/server/endpoints.py:310-391 | In every reachable store a refresh succeeds if and only if the client authenticates and an unrevoked, unexpired row of it bears the token and has an active user; it is answered as reuse if and only if a revoked row of the client bears it; any other refusal changes nothing |
| GrantDecisions.RefreshAnswer | app/server/endpoints.py:363-391 | The answer of a successful refresh carries the tokens of the row it adds, which lives thirty days and succeeds exactly the presented row |
| GrantDecisions.ReuseEffect | app/server/endpoints.py:329-349 | Detected reuse revokes exactly the rows of the presented row's family that belong to its client |
| GrantDecisions.ClientRefusalIff | app/server/endpoints.py:140-189 | A client gets past authentication if and only if it is active and public, or presents its non-empty secret |
| GrantDecisions.PkceRefusalIff | app/server/endpoints.py:223-228 | The proof of key is accepted if and only if none is required or the verifier is the preimage of the stored challenge under S256 or no named method |
| TokenRevocation.RevokeEffect | app/server/endpoints.py:486-529 | Revocation fails exactly for a listed jti; otherwise the blacklist grows by exactly the jti, exactly the first row bearing the token is revoked, and nothing else changes |
| TokenRevocation.EndSessionEffect | app/api/v1/sessions.py:76-129 | Ending a session is the owner's alone, revokes that one live row and lists its jti; in every other case nothing changes |
| TokenRevocation.EndAllSessionsEffect | app/api/v1/sessions.py:132-183 | Ending all sessions succeeds if and only if there is nothing to end or no jti is listed; it then revokes exactly the user's rows and lists exactly their jtis, and otherwise changes nothing |
| TokenRevocation.RevocationIsFinal | app/server/endpoints.py:310-349 | In every run, after a grant is revoked by one of its tokens, by ending its session or by ending all sessions of its user, no later refresh with its refresh token succeeds |
| TokenRevocation.RevokedThenPresented | app/server/endpoints.py:329-349 | When its client presents the revoked refresh token again, that is answered as reuse and the whole family is dead in every continuation |
| TokenFamilies.FamiliesAreChains | app/server/endpoints.py:366-384 | In every serialised run the rows of a family form one linear chain with the client, user and scope of one code, each row made by exchanging the one before, and all but the newest revoked |
| TokenFamilies.FamilyIsCode | app/server/endpoints.py:244-255 | Two rows trace back to the same code exactly when they are of one family |
| TokenFamilies.RootCode | app/server/endpoints.py:231-255 | Every row's chain starts at a used code with the row's client, user and scope |
| TokenFamilies.OriginsAreUnique | app/server/endpoints.py:203-255 | Each code yields at most one row and each row is exchanged for at most one other |
| TokenFamilies.ExchangedOnce | app/server/endpoints.py:329-384 | A refresh token is exchanged successfully at most once, whatever happens in between |
| TokenFamilies.ReplayKillsFamilyForGood | app/server/endpoints.py:329-349 | Presenting a revoked refresh token fails, revokes the whole family, and no later request ever adds a row to that family |
| TokenFamilies.DeadForGood | app/server/endpoints.py:319-349 | A family all of whose rows are revoked stays so and gets no new row |
| TokenFamilies.RunKeeps | app/server/endpoints.py:244-384 | Over any run the chain invariant holds and nothing is un-revoked, un-used, altered or removed |
| TokenFamilies.InvStep | app/server/endpoints.py:244-384 | Each request keeps the chain invariant |
| TokenFamilies.OnlyReplayDetectionSurvivesAnError | app/core/database.py:41-47 | A failing request other than replay detection leaves all tables as they were |
| TokenFamilies.RevokeSucceedsIff | app/server/endpoints.py:486-529 | Revocation succeeds if and only if the token does not decode to a listed jti; otherwise it is a server error that changes nothing |
| TokenFamilies.RevokeTwice | app/server/endpoints.py:486-529 | Revoking an access token a second time succeeds if and only if its entry was pruned in between and not listed again |
| Grants.GrantTracesToRequest | app/server/endpoints.py:192-257 | A successful code grant traces to an authorization or consent request at most 60 s old with the same client and redirect URI, registered values, consent unless auto-approved, and the challenge of the presented verifier; the code is used exactly once |
| Grants.CodesWereRequested | app/server/endpoints.py:114-128 | Every code in the table was recorded by an accepted request of the run |
| Grants.RefreshTracesToIssue | app/server/endpoints.py:316-384 | A successful refresh exchanges the unrevoked row issued to that client at most 30 days earlier, for an active user; the row is revoked, its successor appended, nothing else changes |
| Grants.RowsWereIssued | app/server/endpoints.py:244-255 | Every token row was added by one grant of the run and has since changed at most in being revoked |
| Grants.GrantFollowsScopes | app/server/endpoints.py:242-274 | On clients without scopes that strictly contain the words, a grant issues a refresh token exactly when "offline_access" is one of the code's scopes and an id_token exactly when "openid" is |
| Scopes.SubstringTestIsMembership | app/models/client.py:46-48 | For a client, the substring test equals scope membership on all strings passing the scope check if and only if no registered scope strictly contains the word |
| Scopes.OccursInsideOnePiece | app/server/endpoints.py:242 | A whitespace-free word occurs in a string exactly when it occurs inside one split piece |
| Scopes.SplitAtSpace | app/models/client.py:46-48 | Splitting at whitespace cuts a string at every whitespace character and nowhere else |
| KeyLifetimes.VerifiesUntilIff | app/tokens/keys.py:96-105 | A key a worker holds verifies a token until the token expires, in every continuation, if and only if the token does not outlive the key's row |
| KeyLifetimes.SignedTokenIff | app/tokens/strategy.py:139-173 | In every run, a token signed now verifies on this worker until it expires, in every continuation, if and only if it does not outlive the row of the current signing key |
| KeyLifetimes.ZeroDowntime | app/tokens/keys.py:135-161 | What is signed a time g after an effective check verifies there until it expires, in every continuation, if g plus the lifetime is at most eight days |
| KeyLifetimes.RotationLead | app/tokens/scheduler.py:43-71 | In every run, a check leaves the signing key eight days, counted from the check, if and only if it rotates or the signing key already has them |
| SigningKeys.RotationRule | app/tokens/scheduler.py:61-62 | The floor-of-days test rotates exactly when less than eight days are left |
| SigningKeys.ServedKeysAreVerificationKeys | app/tokens/keys.py:96-105 | In every run the served kids are the keys of the verification map, each once, with numbers that decode to the key's, and include an unexpired signing kid |
| SigningKeys.StartServesSigningKey | app/tokens/keys.py:82-105 | After start-up the signing key can be verified if and only if its row is unexpired |
| KeyLifetimes.LoneWorkerChecksAreEffective | app/tokens/scheduler.py:48-62 | On a lone worker whose restarts pick the latest current row every check looks at a row that expires no later than its signing key, and is effective |
| KeyLifetimes.WellAimedIsEffective | app/tokens/scheduler.py:61-62 | A check of a row that expires no later than the signing key is effective |
| SigningKeys.OneCurrentRow | app/tokens/keys.py:135-144 | A rotation leaves exactly one current row if and only if the caller commits or no other row was current |
| SigningKeys.RowAddedIff | app/tokens/keys.py:82-144 | A key row appears exactly when a start finds no current row, a check finds its row with less than eight days left, or another worker rotates; it is current and has the whole configured life |
| SigningKeys.RowKept | app/tokens/keys.py:135-144 | No key row is lost or changes but in `is_current`, which exactly a rotation with a committing caller clears |
| SigningKeys.KeysExactly | app/tokens/keys.py:90-161 | A worker's keys change only at its starts, to exactly the unexpired rows, and at its rotations, by exactly the new key |
| KeyLifetimes.OnScheduleRuns | app/tokens/scheduler.py:32-40 | A worker that starts, checks every day on time and meets one rotation by another worker ends with two current rows, signing with the older |
| KeyLifetimes.DailyChecksLoseToken | app/tokens/scheduler.py:49-62 | In that run a one-hour token signed less than a day after the last check outlives its key's row, and some continuation leaves it unverifiable |
| KeyLifetimes.OtherWorkersKeyIff | app/tokens/keys.py:130-133 | A key made by another worker is held here if and only if this worker has started since, and last did so before the key expired |
| KeyManagers.KeyManager.Initialize | app/tokens/keys.py:82-120 | A key is created exactly when no row is current; the in-memory state is the selected key and the unexpired rows |
| KeyManagers.KeyManager.LoadKeys | app/tokens/keys.py:90-104 | Served list and verification map of the listed rows |
| KeyManagers.KeyManager.GetPublicPemByKid | app/tokens/keys.py:130-133 | In a consistent world a key is found exactly for the kids served to clients, and it is the key of that kid's row |
| KeyManagers.KeyManager.Rotate | app/tokens/keys.py:135-161 | New table, depending on whether the caller commits, and new in-memory state |
| KeyManagers.KeyManager.MaybeRotate | app/tokens/scheduler.py:43-71 | Rotates exactly when the selected row is due, without clearing the other rows |
| JwksCache.ResponseAtMostThirtySecondsOld | app/api/v1/jwks.py:20-35 | A response leaves out no key published more than thirty seconds ago and adds none |
| JwksCache.FirstResponseAfterRotation | app/api/v1/jwks.py:38-41 | The first response after a rotation lists the new key if and only if nothing was cached or the monotonic clock exceeds thirty |
| JwksCache.KeptForThirtySeconds | app/api/v1/jwks.py:20-35 | A document once built is served for thirty seconds and then rebuilt |
| JwksCache.Endpoint.JwksResponse | app/api/v1/jwks.py:20-35 | Returned document and new globals |
| JwksCache.Endpoint.Invalidate | app/api/v1/jwks.py:38-41 | The next response shows the key list as it then is if and only if nothing was cached, the clock exceeds thirty, or the cached document is that list |
| Base64Url.ByteLengthBounds | app/tokens/keys.py:54-55 | The chosen byte count is enough for n and one byte fewer is not |
| Base64Url.ToBytesFits | app/tokens/keys.py:56 | Big-endian conversion succeeds exactly when the value fits, and reading the bytes gives the value back |
| Base64Url.DecodeEncode | app/tokens/keys.py:56 | Unpadded base64url decodes back to the bytes |
| Base64Url.UIntRoundTrip | app/tokens/keys.py:54-56 | For n > 0 the encoding decodes to n and starts with no zero byte |
| Base64Url.ShortestBytes | app/tokens/keys.py:55 | No shorter byte string has the value n |
| Base64Url.EncodingIsInjective | app/tokens/keys.py:54-65 | Distinct integers get distinct strings; zero is written as the empty string |
| SignInSteps.EveryTokenHasSecondFactor | app/api/v1/auth.py:309-490 | In every run, behind each complete token of an enrolled user is a step in which that user presented a live pending token with a valid TOTP code that was not the last one used, outside the cooldown, or with a stored backup hash: the issuing step itself, less than 300 s after a first factor, or a step less than 30 days earlier that remembered the device whose cookie came with the first factor |
| SecondFactor.TokensShowInLog | app/api/v1/auth.py:309-340 | In every run the log shows the same: a passed second factor right before each complete token of an enrolled user, or the trusting of the device whose cookie was presented |
| SignInSteps.TokenIff | app/api/v1/auth.py:309-569 | A step issues a complete token if and only if its user passes a second factor in it, or passes a first factor and is not enrolled or presents the cookie of an unexpired trusted device |
| SignInSteps.SecondFactorIff | app/mfa/totp.py:117-199 | A step logs a passed second factor if and only if it presents a live pending token of an active, enrolled user with a valid code that is not the last one used and no cooldown in force, or with a hash in the stored list |
| SignInSteps.FirstFactorIff | app/api/v1/auth.py:217-306 | A step logs a passed first factor if and only if it is the Google callback, or a mailed login or a login with the right password, not locked out, of an active user who is enrolled if the tenant mandates it |
| SignInSteps.PendingIff | app/api/v1/auth.py:309-340 | A step hands out a pending token if and only if an enrolled user passes a first factor in it without such a device; it lasts 300 seconds, cut to the whole second |
| SignInSteps.DeviceIff | app/sessions/trusted_device.py:52-74 | A device becomes trusted, for thirty days, if and only if its user passes the second factor in that step and asks for it |
| SignInSteps.PasswordColumns | app/api/v1/auth.py:217-276 | Exactly the passwords looked at while the account is open change the counter: a right one clears it, a wrong one adds one or starts again after a lock, and the fifth locks for 900 seconds |
| SignInSteps.TotpColumns | app/mfa/totp.py:117-174 | Counter, last failure and last code after any step, for each of granted, wrong, replayed, blocked and unrelated |
| SignInSteps.BackupColumn | app/mfa/totp.py:177-199 | A passed backup verification takes out the first copy of the hash and keeps the order; nothing else but enrolment changes the list |
| SignInSteps.EnrolmentIff | app/mfa/totp.py:74-102 | A user is enrolled after a step if and only if before it, or the step is an activation with a valid code by the active user |
| SignInSteps.AccountsExactly | app/api/v1/auth.py:540-548 | Users appear, without MFA, and are reactivated only by the Google callback; otherwise only administration changes activity and mandate |
| SecondFactor.MandateGate | app/api/v1/auth.py:294-306 | A user of a mandating tenant who has not enrolled gets a complete token from a step if and only if it is that user's Google callback |
| SecondFactor.InvStep | app/api/v1/auth.py:309-489 | Each sign-in step keeps every issued token, pending token and device justified by the log |
| SecondFactor.InvRun | app/api/v1/auth.py:309-489 | So does every run |
| SignIn.AuthServer.Login | app/api/v1/auth.py:217-340 | New state of a password login; complete exactly if the user passes the first factor and is not enrolled or presents a trusted device's cookie, pending exactly if only the device is lacking, refused otherwise; every token stays justified |
| SignIn.AuthServer.CheckPassword | app/api/v1/auth.py:217-276 | Granted exactly for a right password while no lock is in force; the lockout columns change as in the lockout model, for this user only |
| SignIn.AuthServer.GoogleCallback | app/api/v1/auth.py:540-569 | The same for the Google callback, after which the user exists |
| SignIn.AuthServer.TotpVerify | app/api/v1/auth.py:406-446 | Complete exactly for a live pending token of an active, enrolled user with a valid code that is not the last one used, outside the cooldown; new state, with an optional new trusted device |
| SignIn.AuthServer.MfaBackupVerify | app/api/v1/auth.py:455-490 | Complete exactly for a live pending token of an active, enrolled user with a stored hash; new state |
| SignIn.AuthServer.RememberDevice | app/sessions/trusted_device.py:52-74 | Afterwards exactly one cookie more bypasses the second factor, for this user and thirty days, if one was asked for |
| TrustedDevices.NewDeviceBypasses | app/sessions/trusted_device.py:59-72 | A new device bypasses for exactly thirty days and for its own user and cookie only |
| TrustedDevices.DeviceTable.IsTrusted | app/sessions/trusted_device.py:36-49 | Agrees with the gate's notion of a trusted device |
| TrustedDevices.DeviceTable.Create | app/sessions/trusted_device.py:52-74 | One row more, expiring in thirty days |
| TrustedDevices.DeviceTable.RevokeAll | app/sessions/trusted_device.py:77-83 | Exactly the user's devices go, the count is returned, and no cookie bypasses for the user afterwards |
| TrustedDevices.DeviceTable.RevokeById | app/sessions/trusted_device.py:106-116 | Deletes the row exactly when it is the user's own |
| Lockout.PasswordRateBound | app/api/v1/auth.py:217-264 | Without a success, failure i + 5k comes at least 900k seconds after failure i, and the lock is set exactly at five failures |
| Lockout.TotpRateBound | app/mfa/totp.py:117-157 | Without a success, failure i + max*k comes at least 60k seconds after failure i |
| Lockout.PasswordInvariant | app/api/v1/auth.py:220-264 | The counter, the lock and the failure times stay in step over any run |
| Lockout.TotpInvariant | app/mfa/totp.py:121-157 | The same for TOTP |
| Lockout.RetryAfterFallsShort | app/api/v1/auth.py:222-228 | Waiting the announced time reopens the account exactly if the remaining lock was a whole number of seconds, and one second more always does |
| Lockout.PasswordAttempt | app/api/v1/auth.py:217-276 | A password is granted if and only if it is right and no lock is in force, and fails if and only if it is wrong and no lock is in force; the counter is then one up, or one after a lock, and the fifth failure locks for 900 seconds; the announced wait is the remaining whole seconds |
| Lockout.CodeAttempt | app/mfa/totp.py:117-174 | A code is granted if and only if it is valid, not the last one used, and the counter is below the limit or its last failure at least 60 seconds old; each other verdict and the new columns likewise |
| Accounts.Account.AttemptPassword | app/api/v1/auth.py:217-276 | Granted exactly for a right password and failed exactly for a wrong one while no lock is in force; new counter and lock in each case |
| Accounts.Account.VerifyTotp | app/mfa/totp.py:117-174 | Granted exactly for a valid code that is not the last one, outside the cooldown, and failed exactly for an invalid one; new columns |
| Accounts.Account.VerifyBackupCode | app/mfa/totp.py:177-199 | Redeemed exactly if the hash is stored; remaining hashes |
| OneTimeCodes.SuccessiveCodesDiffer | app/mfa/totp.py:159-170 | In every serialised run two successive accepted codes differ |
| OneTimeCodes.NoStepTwice | app/mfa/totp.py:159-170 | If accepted time steps never go backwards, none is accepted twice |
| OneTimeCodes.ReplayRejectedIffLast | app/mfa/totp.py:159-161 | An accepted code is rejected on replay if and only if it is the last one accepted |
| OneTimeCodes.AlternatingCodesAllAccepted | app/mfa/totp.py:159-170 | The order a, b, a is accepted for any two valid codes |
| OneTimeCodes.BackupCodesConserved | app/mfa/totp.py:187-197 | Remaining and redeemed hashes together are exactly the issued ones, with multiplicity |
| OneTimeCodes.RedeemableIffLeft | app/mfa/totp.py:189-196 | A hash is redeemed exactly while fewer copies were redeemed than issued |
| OneTimeCodes.RedeemExactly | app/mfa/totp.py:177-199 | A hash is redeemed if and only if it is stored; its first copy then goes and the rest keep their order, and otherwise the list stays as it is |
| EmailOtp.AtMostOneIssue | app/api/v1/email_otp.py:122-133 | However requests interleave, at most one reaches token issuance per code row, and it presented the row's address and code in time |
| EmailOtp.UsedStaysUsed | app/api/v1/email_otp.py:126-133 | A committed used mark is never cleared, and no further token is issued for the row |
| EmailOtp.RolledBackClaimIsUndone | app/api/v1/email_otp.py:135-157 | A claim given up for a missing user, the mandate or a failure changes no row and leaves its own unused and unheld |
| EmailOtp.RolledBackClaimFreesWaiter | app/api/v1/email_otp.py:126-133 | A request already waiting to claim the row then succeeds with its next step |
| EmailOtp.SelectedRowIsClaimed | app/api/v1/email_otp.py:100-133 | A request whose select returns an unheld row claims it if and only if it brings the right code and attempts are left |
| EmailOtp.RolledBackClaimIsClaimable | app/api/v1/email_otp.py:100-157 | After a rolled-back claim, any time and any change to the user, a request before expiry with no later code sent claims the row if and only if it brings the code and attempts are left |
| EmailOtp.RunKeeps | app/api/v1/email_otp.py:98-160 | Over any interleaving the claim invariant holds and committed rows change only in counter and used mark |
| EmailOtp.InvStep | app/api/v1/email_otp.py:98-160 | Each step keeps the claim invariant |
| OtpTraces.IssueTraced | app/api/v1/email_otp.py:88-172 | Behind every issued token, however requests interleave: the code was sent to the address less than 600 s before the request with both arrived; the request selected the row with attempts left, claimed it while unused, found its user active, and met the mandate by the enrolment it had read, which also decides complete or pending |
| OtpTraces.IssuedIff | app/api/v1/email_otp.py:144-172 | A step issues a token if and only if it looks up the tenant for a request that found its user, and the tenant does not mandate MFA or the user was found enrolled; it is complete exactly if found not enrolled |
| OtpTraces.UserFoundIff | app/api/v1/email_otp.py:135-140 | A request goes on with its user, and the enrolment as of then, if and only if it holds its claim and the user is active |
| OtpTraces.ClaimedIff | app/api/v1/email_otp.py:126-133 | An update claims the row if and only if its request was going to and the row is still unused |
| OtpTraces.SelectDecides | app/api/v1/email_otp.py:100-120 | The selected row is burnt exactly after five counted attempts, else counted exactly for a wrong code and claimed exactly for the right one |
| OtpTraces.UpdateThenCommit | app/api/v1/email_otp.py:108-120 | What burning and counting commit to the row, and nothing else |
| OtpTraces.SelectsLatest | app/api/v1/email_otp.py:98-104 | A select finds nothing exactly if the address has no unused, unexpired row, and otherwise the one sent last |
| OtpTraces.IssueUsesRow | app/api/v1/email_otp.py:126-160 | Once a token is issued its row is used and held by nobody |
| OtpEndpoint.OtpTable.Verify | app/api/v1/email_otp.py:88-172 | Committed rows and reply of the handler run by itself |
| OtpEndpoint.AloneIsARun | app/api/v1/email_otp.py:88-172 | The handler by itself is one of the interleaved runs: same rows, same reply |
| OtpEndpoint.FiveGuesses | app/api/v1/email_otp.py:108-120 | For the handler run by itself, at most five wrong codes are compared with a row, and after five even the right one is refused |
| OtpGuesses.CounterWrite | app/api/v1/email_otp.py:116-119 | Whatever others do meanwhile, a counted wrong code adds one to the counter if and only if the value the request read is still the row's, and lowers it if and only if the row had moved on by two or more |
| OtpGuesses.FiveGuessesWithoutOverlap | app/api/v1/email_otp.py:108-120 | In every interleaved run in which no two wrong guesses at a row overlap and none is lost to a failure, at most five wrong codes are compared with it, and after five no code is accepted |
| OtpGuesses.LimitHoldsIff | app/api/v1/email_otp.py:108-120 | No further wrong code can be compared with a live row, whatever happens, if and only if its counter has reached five and no count below five is still on its way |
| OtpGuesses.AnyNumberOfGuesses | app/api/v1/email_otp.py:100-119 | For every n there is an interleaved run from an empty table that compares n wrong codes with one row |
| OtpGuesses.StaleCountLowers | app/api/v1/email_otp.py:116-119 | A run from an empty table in which a late write puts the counter back to one |
| PasswordHistory.ExactWindow | app/identity/password.py:96-115 | After any run of changes the history check rejects exactly the passwords of the last max(1, depth - 1) changes |
| PasswordHistory.StoredHistory | app/identity/password.py:194-205 | The stored history is the last depth chosen hashes |
| PasswordHistory.RecentChoicesDiffer | app/identity/password.py:96-115 | In an accepted run any depth successive choices are different passwords |
| PasswordHistory.PromiseKeptIff | app/identity/password.py:111-113 | The promised last-depth check holds if and only if the depth is one or fewer than depth changes have been made |
| PasswordHistory.PreviousReusable | app/identity/password.py:96-115 | With depth two, after any two accepted changes to different passwords the one before the current is accepted again |
| PasswordHistory.PromiseBroken | app/identity/password.py:111-113 | An accepted run of two changes that breaks the promise exists |
| PasswordHistory.RegistrationPasswordForgotten | app/identity/password.py:194-205 | The registration password is protected until the first change and never after, unless chosen again |
| PasswordHistory.AcceptedIff | app/identity/password.py:76-115 | After any run of changes a password is accepted if and only if it meets every demand and is none of the last max(1, depth - 1) chosen, or before the first change not the registration password |
| PasswordHistory.FirstUnmetDemand | app/identity/password.py:76-95 | Nothing is complained of exactly if there are eight characters, an upper-case letter, a lower-case letter, a digit and another character, and no breach; otherwise the complaint is the first of these not met |
| PasswordHistory.UserRow.ValidatePassword | app/identity/password.py:76-115 | The complaint, in the order of the checks |
| PasswordHistory.UserRow.PushHistory | app/identity/password.py:194-205 | The new hash is appended and the list trimmed |
| PasswordHistory.UserRow.ChangePassword | app/identity/password.py:76-115 | A refused change alters nothing; an accepted one stores the hash and pushes it |
| LoginSessions.CapWithConcurrency | app/api/v1/login_history.py:62-98 | If j other calls for the user commit between a call's query and its commit, at most 10 + j sessions are active after it |
| LoginSessions.CapIff | app/api/v1/login_history.py:62-98 | In every run a commit leaves at most ten active sessions if and only if those the call did not see and those it keeps that are still active are at most nine |
| LoginSessions.OverlappingCallsOvershoot | app/api/v1/login_history.py:77-98 | Two calls that both saw nine sessions leave eleven |
| LoginSessions.OldestEvicted | app/api/v1/login_history.py:84-95 | Every evicted session is no newer than every session read and kept; kept ones and the new one are not deactivated; how many are kept is `LoginSessions.CommitKeepsNewest` |
| LoginSessions.CommitKeepsNewest | app/api/v1/login_history.py:77-98 | In every run a commit leaves the newest nine of the sessions the call read as they are, deactivates exactly the older ones, adds its own as active and changes no other |
| LoginSessions.UndisturbedCount | app/api/v1/login_history.py:62-98 | An undisturbed call leaves min(10, before + 1) active sessions |
| LoginSessions.UndisturbedCap | app/api/v1/login_history.py:62-98 | An undisturbed call leaves at most ten, however many there were |
| LoginSessions.InvStep | app/api/v1/login_history.py:62-98 | Each step keeps what every call in flight can have missed within the calls committed since its query |
| LoginSessions.SessionTable.RecordLogin | app/api/v1/login_history.py:43-98 | New table of one undisturbed call: exactly the newest nine of the sessions read stay active, and min(10, before + 1) are active afterwards |
| LoginSessions.SessionTable.RevokeLoginEvent | app/api/v1/login_history.py:135-165 | Deactivates the session exactly when it is the user's own |
| LoginSessions.SessionTable.RevokeAllLoginEvents | app/api/v1/login_history.py:169-189 | Deactivates all of the user's sessions and nothing else |
| RegRateLimit.AnswersAsFullLog | app/middleware/reg_rate_limit.py:36-46 | With a clock that never goes back, every answer is that of a counter over the full log of accepted attempts |
| RegRateLimit.AtMostFivePerWindow | app/middleware/reg_rate_limit.py:25-46 | No half-open window of 3600 s, open at either end, holds more than five attempts from one address that the counter accepted |
| RegRateLimit.AcceptedIffRoom | app/middleware/reg_rate_limit.py:36-46 | With a clock that never goes back, an attempt is accepted if and only if fewer than five from its address were accepted in the last 3600 s |
| RegRateLimit.AcceptedIsLog | app/middleware/reg_rate_limit.py:36-46 | The attempts the counter accepted are those of the full log |
| RegRateLimit.OtherAddressesInvisible | app/middleware/reg_rate_limit.py:40-46 | What other addresses do changes no answer |
| RegRateLimit.KeptAgreesWithLog | app/middleware/reg_rate_limit.py:42 | The pruned list and the full log agree at every cutoff still to come |
| RegRateLimit.RegCounter.CheckAndRecord | app/middleware/reg_rate_limit.py:36-46 | Answer and new lists of one call |
| ClaimsCache.AnswerStaleness | app/tokens/strategy.py:37-64 | A record from a successful load is the reserved-stripped row as of a moment less than 60 s plus the load's remaining time earlier; a failed load gives the empty record |
| ClaimsCache.ServedForSixtySeconds | app/tokens/strategy.py:37-64 | A stored record is the answer exactly until sixty seconds after its store, whatever else happens short of an invalidation or another load of its key |
| ClaimsCache.FreshAfterInvalidation | app/admin/jwt_claims.py:119-123 | Once dropped from the cache, a tenant is served only from a given version on if and only if no load in flight has read an older one |
| ClaimsCache.OtherSpellingKeepsServing | app/tokens/strategy.py:72-74 | Invalidating another spelling of the tenant's UUID leaves the old record in service |
| ClaimsCache.PayloadClaims | app/tokens/strategy.py:152-172 | From row to payload no custom or extra claim shadows a reserved one, and other custom claims arrive unchanged; name and slug are the row's |
| ClaimsCache.ValidClaimsSurvive | app/tokens/strategy.py:53-59 | Stripping removes nothing from claims the endpoint accepts |
| ClaimsCache.InvStep | app/tokens/strategy.py:37-64 | Each step keeps every load and cache entry tied to the table version it read |
| ClaimsCache.Worker.GetTenantRecord | app/tokens/strategy.py:37-64 | Hit or load: returned record and new cache |
| ClaimsCache.Worker.SetJwtClaims | app/admin/jwt_claims.py:91-133 | Succeeds exactly for valid claims, a superuser and an existing tenant; then the next load yields exactly these claims and the addressed entry is dropped |
| ClaimsCache.Worker.ClearJwtClaims | app/admin/jwt_claims.py:136-160 | The same with no claims |
| OAuthState.ParseIffPrinted | app/identity/social.py:66-71 | A string parses to given fields if and only if it is these fields printed and nonce, timestamp and signature hold no colon |
| OAuthState.ParsePrint | app/identity/social.py:49-55 | The printed state parses back to its fields for any tenant string, colons included |
| OAuthState.MalformedIff | app/identity/social.py:65-69 | Exactly the strings with fewer than three colons are malformed |
| OAuthState.PayloadInjective | app/identity/social.py:52 | A signed payload names one tenant, one nonce and one timestamp |
| OAuthState.NumberDigits | app/identity/social.py:51 | The timestamp's decimal digits read back as the number |
| OAuthState.VerifyGenerated | app/identity/social.py:58-85 | A generated state yields its tenant and nonce for 300 whole seconds and until the nonce is used, and the right error otherwise |
| OAuthState.AcceptedWasGenerated | app/identity/social.py:71-85 | With unforgeable signatures an accepted string is one that was generated, for that tenant and nonce and within its age |
| OAuthState.CodecsAgree | app/identity/enterprise.py:242-259 | On every string the enterprise copy accepts for a tenant exactly what the Google copy accepts or refuses only as already used, and otherwise gives the same error |
| OAuthState.ConsumedNonceRejected | app/api/v1/auth.py:515-524 | In every run of the blacklist protocol a consumed nonce is accepted again on the same worker only in [consumed + 300, ts + 301), which is empty when it was consumed a second or more after ts |
| OAuthState.WindowReached | app/tokens/revocation.py:112-119 | Every moment of that window is reached, for every time of consumption, by a run in which the state is accepted again |

## Left out

- Introspection: it does not consult the revocation set, so nothing is claimed about it.
- Client credentials, passkeys, enterprise sign-in, impersonation and personal access tokens as issuance points: they do not pass the `requires_mfa` gate.
- `totp_disable`: it writes a column the model does not declare; TOTP is never disabled here, and the sentinel password hash of Google-managed users is not modelled.
- Magic links, invitations and e-mail changes as machines of their own: the pattern of the e-mail code without its guarded claim. Magic-link sign-in appears in `SecondFactor` as `MailedLogin`.
- `is_verified`, which the e-mail code handler sets on success, and the registration flow.
- Overlapping grants: the code and refresh grants read and then update without a guard, so their theorems are for handlers run one at a time.
- Overlapping sign-in handlers: lockouts, TOTP and backup codes likewise.
- The tick counting of the listen loop: a prune may start at any moment of a listening worker's life.
- Base64 and UTF-8 around the printed OAuth state, and the other spellings of an integer that Python's `int` accepts as a timestamp.
- ETag and cache headers of the JWKS document, id_token contents, audit events, metrics, e-mail and templates.
- The breach-list request: its answer is a parameter. Argon2, RSA, HMAC, SHA-256 and Fernet are ideal.
- `X-Forwarded-For` handling and the lock of the registration counter: calls to it do not overlap.
- Custom claims with floating-point values.
- Casbin, IP policy, audit pagination, GDPR export, admin CRUD and outbound clients: short branches or wrappers.
- ClaimsCache.Worker.GetTenantRecord: a call that nothing interrupts; the interleaved runs are the transition system beside it.
- SignIn.AuthServer.Login: the checks before the lockout are one boolean, and the request limiter in front of the handlers is left out.
- SignInSteps.EveryTokenHasSecondFactor: covers password, Google, magic link, e-mail code, TOTP and backup codes only.
