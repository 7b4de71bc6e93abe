# Verified model of the dashboard API's state

This project models the parts of the service where state, concurrency, arithmetic or parsing make mistakes
easy, and proves what those parts are for. `dafny verify dfyconfig.toml` checks all of it.

## What is modelled

* **Sessions** (`RefreshTokens`, `RotationSafety`, `AloneRefresh`, `SessionStore`). The `refresh_tokens`
  table, one atomic step for each SQL statement, and any number of `Refresh` calls that read a row, decide,
  and later issue a conditional rotation or a family revocation. The state machine lets sign-ins, sign-outs,
  password changes and the retention purge happen between any two of those steps. It is the rotation scheme
  of section 4.14.2 of RFC 9700. `AloneRefresh` treats a whole call as one step, and `SessionStore` is the
  store and service as objects that update the table.
* **Rate limiters** (`RateLimit`, `RateLimitInFlight`, `RedisRateLimit`). The token buckets with throttled
  pruning, compared with a limiter that never prunes, for calls one after the other and for overlapping calls
  that read the clock before the mutex and take their token after it; and the Redis fixed-window counter with
  its local fallback. A bucket's level
  is an exact rational, kept as an integer in units of 1/window of a token.
* **Sign-in** (`Lockout`, `LockoutInFlight`, `Mfa`, `MfaService`). The failure counter and lock that the
  password step and the second factor share, also with attempts that overlap, and the enrolment of a second
  factor with one-time recovery codes.
* **Lists** (`Keyset`, `CursorTraversal`, `SystemEvents`, `Notifications`, `Search`, `Pagination`, `Projects`). Keyset pages
  with a probe row over a table that changes between pages, offset pages narrowed to 32 bits, and the
  escaped search pattern under the LIKE rules of section 9.7.1 of the PostgreSQL manual.
* **Roles** (`Permissions`, `Rbac`, `RbacOutcomes`, `RbacInterleaving`, `RbacService`). Who may send a
  role or user management request, when it goes through and what it leaves; runs of sign-ups and of such
  requests, first each one an atomic step that starts with authorisation, and then with authorisation, guards
  and transaction as three steps that interleave with those of other requests.
* **One-time tokens** (`AuthTokens`, `AuthTokenService`). The transactions that spend a password-reset or
  verification token, with a failure possible at every step, and what interleaving does to them.
* **Codecs** (`Base64`, `Decimal`, `PasswordHash`, `Calendar`, `KeysetCursor`). The PHC password-hash string
  and the opaque pagination cursor.

`Wrappers`, `Text`, `Sequences` and `Arithmetic` hold what several modules share.

## Assumptions

Each SQL statement is one atomic step, and so is each committed transaction. There is one nondecreasing
clock. Freshly generated UUIDs, tokens, recovery codes and hashes never collide with earlier ones. Lifetimes,
windows and thresholds do not change during a run. Hash functions, the key derivation, one-time passwords,
case folding and random values are parameters. Where a lemma needs a call to be undisturbed, or the fields of
a request to be parsed already, its statement says so.

## Where the code decides

* On a Redis error the limiter falls back to the local one (`internal/http/middleware/redisratelimit.go:66-72`);
  the repository's `README.md:280` says it fails open. The model follows the code.
* Pruning idle clients is invisible only when `burst * window <= requests * (ttl + 1 ns)`. A larger burst lets
  a pruned client back in with a full bucket too early: `RateLimit.PruningIsInvisibleIff`. When calls overlap,
  the time between a call's clock reading and its token comes off the ttl: `RateLimitInFlight.PruningIsInvisibleIff`.
* The Redis expiry is cut to whole seconds. A window that is not a whole number of seconds lets more than
  twice the limit through, and one under a second limits nothing: `RedisRateLimit.TwiceTheLimitIff`.
* After a purge, presenting a purged revoked token no longer revokes its family:
  `AloneRefresh.PurgeEffectOnRefresh` says exactly when that leaves a row live.
* `int32(offset)` wraps for very large pages: `Pagination.PageIsTrueIff`.
* The comment above `NewSet` says that `Has` is only ever true for a catalog permission or through the
  wildcard; a set built from other strings answers yes to them (`Permissions.HasStaysInCatalogIff`).
  `RbacInterleaving.ChecksStayInCatalog` shows that stored permissions never do.
* Without a unit of work a reset can spend its token and store no password: `AuthTokenService.DirectResetIsWholeIff`.
* Issuing a token ignores a failed delete of the earlier ones: `AuthTokenService.EarlierTokenStopsIff`.
* Three guarantees can fail when calls interleave, and hold exactly under a condition the transaction could
  check: that the stored secret is still the checked one (`Mfa.SecretInForceIsCheckedIff`; `Mfa.EnabledWithoutSecret`
  is the shortest run that fails), that another active
  administrator than the target is left (`Rbac.AdminRemainsIff`, `RbacInterleaving.AdminThroughoutIff`), and
  that no other token works at the insert (`AuthTokens.NewTokenIsOnlyOneIff`).
* The lock check and the counting of a failure are two statements, so attempts already past the check still
  count after the account is locked: `LockoutInFlight.GuessesPerInterval` bounds what that adds.

## Model

| member | source | states |
|---|---|---|
| `RefreshTokens.StepKeepsInv` | internal/store/query/refresh_tokens.sql.go:321-373 | every statement, service step and purge keeps one invariant: each family is one chain of rotations with at most its last row live, chains and records only grow, and an ended family stays ended |
| `RefreshTokens.RunKeepsInv` | internal/auth/service/service.go:725-771 | the same after any interleaving of any number of Refresh calls, sign-ins, revocations, password changes and purges |
| `RefreshTokens.WinKeepsInv` | internal/auth/service/service.go:1550-1580 | the conditional rotation that finds its row live extends that family's chain by exactly one live row and leaves every other family alone |
| `RotationSafety.ReachableTableIsWellFormed` | internal/store/query/refresh_tokens.sql.go:321-373 | in every reachable table a family has at most one unrevoked row, its rows agree on user, start, user agent and IP, and replaced_by_token_id links form one forward chain: no dangling link, no shared successor, no cycle |
| `RotationSafety.ActiveListHasDistinctFamilies` | internal/store/query/refresh_tokens.sql.go:154-173 | the active-session list of a reachable table never shows a family twice |
| `RotationSafety.AtMostOneSession` | internal/auth/service/service.go:1565-1571 | of any number of interleaved Refresh calls presenting one token, at most one returns a session |
| `RotationSafety.DeadFamilyStaysDead` | internal/store/query/refresh_tokens.sql.go:249-256 | a family with no live row never gains one in any continuation, and no call still in flight gets a session from it |
| `RotationSafety.ReuseEndsFamily` | internal/auth/service/service.go:744-754 | a Refresh that returned through the reuse or the rotation-conflict branch has left the whole family revoked, for good |
| `RotationSafety.ReturnedCallsStayInRuns` | internal/auth/service/service.go:725-771 | what a call returned never changes later in a run, so the counts of sessions are final |
| `RotationSafety.EndedIffDead` | internal/store/query/refresh_tokens.sql.go:321-373 | a family is over exactly when its last row is gone or revoked: no earlier row can be live |
| `RotationSafety.PasswordChangeEndsSessions` | internal/auth/service/service.go:1167-1188 | after the commit no token of the user that ever existed, nor a descendant, gives a session again, even to a Refresh that had already read its row; what the user has live later started afterwards |
| `RotationSafety.RevokeTouchesOnlyItsScope` | internal/store/query/refresh_tokens.sql.go:211-218 | a revoking statement leaves rows outside its WHERE clause, rows already revoked and links untouched, and leaves no live row inside it |
| `RotationSafety.PurgeRemovesPrefix` | internal/store/query/refresh_tokens.sql.go:101-104 | the retention purge removes a prefix of each rotation chain and nothing else |
| `RotationSafety.PurgeKeepsActiveList` | internal/store/query/refresh_tokens.sql.go:154-173 | the purge removes exactly the expired rows and changes nobody's active-session list |
| `AloneRefresh.RefreshAmidInterference` | internal/auth/service/service.go:725-771 | whatever others did between its statements, reuse and a lost race end the family, a session needs a row still live at the rotation, and every other outcome writes nothing |
| `AloneRefresh.RefreshAmidOutcome` | internal/auth/service/service.go:725-771 | which outcome a stored token comes to for any changes in between: the row as read decides refusals, the row as it then is decides the race, and a lost race revokes exactly what is then live of the family |
| `AloneRefresh.RefreshContinuesSession` | internal/auth/service/service.go:1596-1620 | success continues the session: same user, family, device and start, a full new lifetime, the old token revoked and linked, no other row changed |
| `AloneRefresh.RefreshPunishesReuse` | internal/auth/service/service.go:744-754 | presenting a revoked token revokes its family and changes no other family |
| `AloneRefresh.SoloRunIsRefreshAlone` | internal/auth/service/service.go:725-771 | the interleaved protocol, when no other call takes a step, computes the one-step Refresh |
| `AloneRefresh.PurgeEffectOnRefresh` | internal/store/query/refresh_tokens.sql.go:101-104 | purging first never changes what a client sees from presenting any token, and changes the unexpired rows left afterwards exactly when the token was revoked, already purged and some other row of its family is still live and unexpired |
| `AloneRefresh.ReuseCanGoUnseen` | internal/auth/service/service.go:744-754 | a call can meet that condition: from the empty table, every session refreshed once leaves such a table when its first token has expired and its second has not |
| `SessionStore.RefreshTokenStore.RotateRefreshToken` | internal/store/query/refresh_tokens.sql.go:321-373 | revokes and links the prior row and inserts its successor in one statement, or changes nothing when the prior row is not live |
| `SessionStore.RefreshTokenStore.RevokeTokens` | internal/store/query/refresh_tokens.sql.go:211-306 | the five revoking statements: no live row in scope is left, every row that changes was live and is revoked at the given time, identities and links stay, and the changed rows are counted |
| `SessionStore.RefreshTokenStore.PurgeExpired` | internal/store/query/refresh_tokens.sql.go:101-104 | exactly the rows that have not expired stay, unchanged, and the others are counted |
| `SessionStore.RefreshTokenStore.ListActiveSessions` | internal/store/query/refresh_tokens.sql.go:154-173 | the user's live unexpired rows, each once, most recently used first and rows without a time of last use at the end |
| `AloneRefresh.IssuedTokenRefreshes` | internal/auth/service/service.go:1523-1548 | a freshly issued token gives its user, if active, a new session for exactly its lifetime, and every other presented token gets the answer it got before |
| `SessionStore.SessionService.Refresh` | internal/auth/service/service.go:725-771 | the result and the table are those of Refresh with an arbitrary table change after the lookup and another after a lost race; without the first, a session comes back exactly for a stored, live, unexpired token of an active user |
| `SessionStore.SessionService.SignOut` | internal/auth/service/service.go:774-789 | no row with the presented token's hash is live afterwards, and every other row, its own revocation time if it had one, and the identity of the row are as they were; a blank token changes nothing |
| `SessionStore.SignedOutTokenIsUseless` | internal/auth/service/service.go:774-789 | presenting a signed-out token never gives a session, whenever it is presented and whatever the status of its user |
| `RotationSafety.SignOutEndsSession` | internal/auth/service/service.go:774-789 | signing out with a live token ends its family in every continuation: no token of it is rotated again, not even by a Refresh that had already read its row |
| `RotationSafety.LostRaceEndsSession` | internal/auth/service/service.go:1565-1580 | of two calls that both found one live token fit to rotate, the second to ask returns the conflict, and the session the first was given is over |
| `SessionStore.SessionService.SignOutOtherSessions` | internal/auth/service/service.go:796-828 | leaves the presented session's family as the user's only live one, or refuses and changes nothing |
| `SessionStore.SessionService.RevokeSession` | internal/auth/service/service.go:889-905 | ends one family of the user and no other, or reports that the user has no such session |
| `SessionStore.SessionService.ListSessions` | internal/auth/service/service.go:845-869 | one entry per active session, with that row's family, device and times, marked current exactly when the presented token is a live one of the user in that family |
| `SessionStore.AtMostOneCurrentSession` | internal/auth/service/service.go:845-884 | at most one listed session is marked as the current one |
| `RateLimit.PruningIsInvisible` | internal/http/middleware/ratelimit.go:82-124 | the pruning limiter answers every sequence of requests as one that never forgets a client, when an idle bucket has time to fill |
| `RateLimit.PruningIsInvisibleIff` | internal/http/middleware/ratelimit.go:118-124 | for calls made one after the other, that agreement holds for all sequences exactly when burst * window <= requests * (ttl + 1 ns) |
| `RateLimitInFlight.PruningIsInvisibleIff` | internal/http/middleware/ratelimit.go:82-124 | with overlapping calls that wait at most a for the mutex and take their token at most b after it, pruning changes no answer exactly when a + b <= ttl and burst * window <= requests * (ttl + 1 ns - a - b) |
| `RateLimitInFlight.PruningIsInvisible` | internal/http/middleware/ratelimit.go:82-124 | then every run agrees with the limiter that never prunes, bucket by bucket, and no call that can still take a token holds a bucket the table has dropped |
| `RateLimitInFlight.ModestBurstIsSafe` | internal/http/middleware/ratelimit.go:59-79 | with the ttl the constructor picks, bursts of up to the requests of a window are safe with delays of up to a window in all |
| `RateLimitInFlight.AdmittedInInterval` | internal/http/middleware/ratelimit.go:82-108 | under that condition each key is let through at most burst + requests * length / window times in any stretch of any run, after any history |
| `RateLimitInFlight.AloneIsServeAt` | internal/http/middleware/ratelimit.go:82-108 | a call with nothing between its steps is served as the one-step call with two clock readings |
| `RateLimit.ModestBurstIsSafe` | internal/http/middleware/ratelimit.go:59-79 | with the ttl the constructor picks, every burst up to twice the requests of a window is safe |
| `RateLimit.AdmittedInInterval` | internal/http/middleware/ratelimit.go:82-108 | after any history each key is let through at most burst + requests * length / window times in any stretch of that length |
| `RateLimit.RetryAfterSeconds` | internal/http/middleware/ratelimit.go:165-171 | the least whole number of seconds, at least one, that is worth a token |
| `RateLimit.WaitingNeverDrains` | internal/http/middleware/ratelimit.go:82-124 | waiting never lowers a level, even when the clock has stepped back |
| `RateLimit.DeniedThenAdmitted` | internal/http/middleware/ratelimit.go:111-116 | a denied client that stays silent for RetryAfterSeconds is then let through, whatever the others do and whatever the settings |
| `RateLimit.HistoriesAreOk` | internal/http/middleware/ratelimit.go:82-124 | every history leaves well-formed buckets, last seen no earlier than last used |
| `RateLimit.IPRateLimiter.Allow` | internal/http/middleware/ratelimit.go:82-108 | answers and updates the client table as the pruning limiter with its two clock readings, and always lets through when disabled |
| `RateLimit.IPRateLimiter.PruneLocked` | internal/http/middleware/ratelimit.go:118-124 | deletes exactly the clients idle for longer than the ttl |
| `RedisRateLimit.TwiceTheLimitIff` | internal/http/middleware/redisratelimit.go:20-26 | after any history a key is let through at most twice the limit in any stretch of one window, exactly when the window is a whole number of seconds (or the limit is one and the window at least a second); a window under a second limits nothing |
| `RedisRateLimit.NoExpiryNoLimit` | internal/http/middleware/redisratelimit.go:20-26 | with a window under a second the counter lets through every call it answers, of every client, after any history and in any sequence of answered and lost calls |
| `RedisRateLimit.ServingSplits` | internal/http/middleware/redisratelimit.go:61-75 | however calls switch between Redis and the fallback, each limiter sees just its own calls and the admissions add up |
| `RedisRateLimit.AdmittedAcrossFallback` | internal/http/middleware/redisratelimit.go:61-75 | so at most 2 * limit + burst + requests get through per key in any stretch of one window |
| `RedisRateLimit.RedisRateLimiter.Allow` | internal/http/middleware/redisratelimit.go:61-75 | the counter decides when Redis answers, the local limiter when it does not |
| `LockoutInFlight.GuessesPerInterval` | internal/store/query/users.sql.go:269-282 | with at most k attempts at once past the lock check, each counted at most d < W after it started, at most PerLock * (floor(L / (W - d)) + 1) + k - 1 failures are counted in any stretch without a completed sign-in, after any history, where PerLock is k rounded up to a multiple of M (so M itself for k up to M) |
| `LockoutInFlight.BoundIsAttained` | internal/auth/service/service.go:550-613 | for d = 0 and k up to M an attacker who strikes whenever the account opens gets exactly that many, over any number of locks |
| `LockoutInFlight.GuessesWithShortDelays` | internal/store/query/users.sql.go:269-282 | for 2d < W and k up to M, at most M * (floor((L + d) / W) + 1) + k - 1 failures: two locks come from attempts that start a whole window apart |
| `LockoutInFlight.ShortDelayBoundIsAttained` | internal/auth/service/service.go:550-613 | from two attempts at once on, that bound is exact for every length |
| `LockoutInFlight.GuessesOneAtATime` | internal/store/query/users.sql.go:269-282 | one attempt at a time: wrong passwords and wrong codes together number at most M * (floor(L / W) + 1), whatever correct passwords of a two-factor account come in between |
| `LockoutInFlight.AttemptsRun` | internal/auth/service/service.go:520-722 | attempts made one after the other, none of them completing, are a run of the interleaved machine with the same failures and the same row |
| `LockoutInFlight.PastTheCheckMayEnd` | internal/auth/service/service.go:600-620 | an attempt past the check can always complete, which clears the counter and the lock, or end without a trace |
| `LockoutInFlight.RunKeepsInv` | internal/store/query/users.sql.go:269-282 | in every interleaving the counter stays below M, and while a lock holds only attempts already past the check can count |
| `Lockout.CounterStaysInRange` | internal/store/query/users.sql.go:269-282 | the counter stays in [0, M - 1] through every sequence of attempts |
| `Lockout.StatementsKeepCounterInRange` | internal/config/config.go:514-529 | each statement alone keeps it there, so counting up never leaves 32 bits |
| `Lockout.SignInService.RegisterLoginFailure` | internal/store/query/users.sql.go:269-282 | counts one failure of one user, or locks and restarts the count at the threshold |
| `Lockout.SignInService.SignIn` | internal/auth/service/service.go:520-643 | signs in exactly for a known address with the right password of at most 4096 bytes, not locked, not disabled and without a second factor; with one it answers pending and changes nothing; otherwise it is one attempt of that account and nobody else is touched |
| `Lockout.SignsInIff` | internal/auth/service/service.go:520-613 | in any sequence of attempts one signs in exactly when it is the right password of an account without a second factor or the right code of one with it, not locked or disabled then, and waits for a code exactly when it is the right password of an account with one |
| `Lockout.FailsIff` | internal/auth/service/service.go:565-580 | an attempt counts as a failure exactly when the account is not locked and what was presented is wrong, a code only while the account is enabled and has a second factor |
| `Lockout.CounterAfter` | internal/auth/service/service.go:586-620 | a sign-in clears the counter and the lock, a failure adds one or locks for the whole window, and everything else, the right password of an account with a second factor included, changes neither |
| `Lockout.SignInService.CompleteMfaSignIn` | internal/auth/service/service.go:650-722 | signs in exactly for a right code of an enabled, unlocked account with a second factor; it shares counter and lock with the password step |
| `Mfa.RunKeepsInv` | internal/store/authrepo/mfa.go:62-149 | every interleaving of the locked transactions keeps stored codes, batches and acceptances consistent |
| `Mfa.CodesExistIffEnabled` | internal/store/authrepo/mfa.go:117-149 | recovery codes are stored exactly while the factor is on; then they are the ten of one enrolment, and unused ones plus acceptances since make ten |
| `Mfa.NoCodeAcceptedTwice` | internal/store/query/mfa.sql.go:14-19 | no recovery code is ever accepted twice |
| `Mfa.AcceptedIff` | internal/store/authrepo/mfa.go:43-56 | a code is accepted exactly when it belongs to the current enrolment and was not accepted before |
| `Mfa.ConsumeSpendsIff` | internal/store/query/mfa.sql.go:14-22 | presenting a code accepts it exactly when the user has it stored unused, and then it stops matching and no other code does |
| `Mfa.SetupStoresIff` | internal/store/authrepo/mfa.go:85-112 | a set-up replaces the secret exactly while the factor of an existing user is off |
| `Mfa.NothingReplacedWhileEnabled` | internal/store/authrepo/mfa.go:88-111 | while the factor stays on, neither its secret nor its set of codes is replaced |
| `Mfa.SecretInForceIsCheckedIff` | internal/mfa/service/service.go:161-209 | with any transactions between a Confirm's check and its own, and any after it while the factor stays on, the secret in force is the checked one exactly when the secret stored at the enrolment transaction is |
| `Mfa.SecretInForceIsTheEnrolled` | internal/store/authrepo/mfa.go:117-149 | while the factor stays on after an enrolment, a secret is stored exactly if one was stored at the enrolment, and it is that one |
| `Mfa.UndisturbedSecretIsChecked` | internal/mfa/service/service.go:161-209 | it is the checked one whenever no Setup or Disable of that user came between |
| `Mfa.DisturbedSecretIsNot` | internal/mfa/service/service.go:161-209 | from every state with a secret and the factor off, one Disable in between leaves the factor on without a secret and one Setup leaves it on with an unchecked one |
| `MfaService.EnabledSecretIsConfirmed` | internal/mfa/service/service.go:161-209 | with each call one step, the secret in force is one the user gave a valid code for |
| `MfaService.ReturnedCodesWorkOnce` | internal/mfa/service/service.go:188-202 | after a successful Confirm, and after any requests of any users through which the factor stays on, a returned code is accepted exactly when it was not presented before |
| `MfaService.WorksUntilPresented` | internal/store/query/mfa.sql.go:14-19 | while the factor stays on, any code that works keeps working exactly until it is presented |
| `MfaService.InvalidCodeChangesNothing` | internal/mfa/service/service.go:215-241 | a refused code changes no table |
| `MfaService.MfaStore.CompleteEnrollment` | internal/store/authrepo/mfa.go:117-149 | replaces the user's codes by the given ones and switches the factor on, or changes nothing |
| `MfaService.MfaStore.DisableMfa` | internal/store/authrepo/mfa.go:62-83 | switches off and removes secret and codes together |
| `MfaService.Service.Confirm` | internal/mfa/service/service.go:161-209 | returns codes exactly for a one-time password of the stored secret of a user whose factor is off; then exactly the returned codes work, the factor is on, and nothing of anybody else changes |
| `MfaService.EnrolmentWorksIff` | internal/mfa/service/service.go:121-212 | a new user who sets a secret up and gives a code ends up with the factor on, that secret and exactly the generated codes, or with the factor off, according to whether the code is the secret's one-time password |
| `MfaService.Service.Setup` | internal/mfa/service/service.go:121-156 | stores the secret exactly for a user whose factor is off |
| `MfaService.Service.Verify` | internal/mfa/service/service.go:215-241 | accepted exactly when a secret is stored and the trimmed code is its one-time password or an unused recovery code of the user; a one-time password changes nothing and a recovery code only its own row |
| `MfaService.Service.Disable` | internal/mfa/service/service.go:247-263 | switches off exactly for a right code, and then removes the flag, the secret and every code of that user and nothing of anybody else; any other code changes nothing |
| `Keyset.FetchTakesTheNewest` | internal/systemevents/service/service.go:73-95 | a page holds the newest rows past the cursor, newest first; what it leaves out is older than its last row, and then more is reported |
| `Keyset.OnFirstPageIff` | internal/store/query/system_events.sql.go:113-126 | a row is on the first page exactly when fewer rows than the page holds are newer |
| `Keyset.TraversalIsDescending` | internal/store/query/system_events.sql.go:113-126 | whatever the table is at each page and whatever limit each request has, following the cursor lists strictly older and older rows, so none twice |
| `Keyset.TraversalMissesNothing` | internal/store/query/system_events.sql.go:113-126 | a completed traversal lists every row that matched whenever a page was read |
| `Keyset.PagesComeFromTheirTables` | internal/store/query/system_events.sql.go:113-126 | nothing is listed that did not match when its page was read |
| `Keyset.StaticTraversal` | internal/systemevents/service/service.go:73-95 | on a table that does not change a completed traversal is the whole sorted filtered list whatever the limits, and with one limit it takes the number of pages PageCount gives |
| `Keyset.PageCountIsCeiling` | internal/systemevents/service/service.go:73-95 | which is max(1, ceil(n / limit)) |
| `Keyset.LastingRowIsListedOnce` | internal/store/query/notifications.sql.go:67-79 | a row that every version of the table asks for is listed exactly once by a completed traversal |
| `Keyset.VersionStep` | internal/store/query/system_events.sql.go:113-126 | each page of such a traversal finds the table the one before found, with every change in between made |
| `Keyset.ChangesAreMade` | internal/store/query/system_events.sql.go:113-126 | what happens between two pages happens one change after the other, and all of it |
| `CursorTraversal.FollowIsTraverse` | internal/http/handlers/system_events.go:88-129 | a client that sends back each page's printed cursor gets exactly the pages of the traversal, for all tables of instants of years 0 to 9999, and whatever limit each request has |
| `CursorTraversal.ClientSeesEachLastingRowOnce` | internal/http/handlers/system_events.go:88-129 | so it sees older and older rows, and exactly once each that every request finds |
| `CursorTraversal.BeforeIsLess` | internal/store/query/system_events.sql.go:124-125 | comparing UUIDs byte by byte orders them as the numbers the traversal uses for ids |
| `Keyset.SortedIsUnique` | internal/store/query/system_events.sql.go:124-125 | there is one way to list a set by created_at DESC, id DESC |
| `Keyset.SelectNewest` | internal/store/query/system_events.sql.go:124-125 | row-by-row selection yields the newest rows of the set, in order |
| `SystemEvents.ClientSeesEveryLastingEventOnce` | internal/store/query/system_events.sql.go:47-50 | whatever is recorded and purged meanwhile, a client paging through a feed sees exactly once each event of the feed that was there at the start and was not purged |
| `SystemEvents.ClientSeesOnlyTheFeed` | internal/store/query/system_events.sql.go:113-126 | and sees nothing else: in the log only events of the type and within the times asked for, in an activity feed only auth events that name the user |
| `SystemEvents.IsAuthEvent` | internal/store/query/system_events.sql.go:177-177 | the activity feed's LIKE pattern is the prefix auth. and nothing more |
| `SystemEvents.RecordedEventIsListed` | internal/store/query/system_events.sql.go:14-18 | a recorded event changes no feed it does not belong to, and is on the first page of its own exactly while fewer events than the page holds are newer |
| `SystemEvents.EventStore.ListPage` | internal/store/systemeventsrepo/events.go:29-59 | the rows of the table at the first positions past the cursor, in order |
| `SystemEvents.EventStore.DeleteEventsBefore` | internal/store/query/system_events.sql.go:47-50 | removes exactly the events older than the cutoff and counts them |
| `SystemEvents.Service.ListEvents` | internal/systemevents/service/service.go:59-96 | a limit outside 1 to 100 or an empty time range is refused; otherwise the page of exactly the events of the trimmed type, or of every type when it is blank, within the range, its end reported truly |
| `SystemEvents.Service.ListUserActivity` | internal/systemevents/service/service.go:101-130 | the same for one user's own auth events |
| `Notifications.ClientSeesEachNotificationOnce` | internal/store/query/notifications.sql.go:67-79 | whatever arrives and is marked read meanwhile, a client sees each notification of the full feed once, and in the unread feed each that was not marked read |
| `Notifications.ClientSeesOnlyTheirOwn` | internal/store/query/notifications.sql.go:67-79 | and nothing of anybody else, nor in the unread feed anything already read when its page was |
| `Notifications.ArrivalIsListed` | internal/store/query/notifications.sql.go:67-79 | a notification that arrives is on the first page of its user's feeds exactly while fewer than the page holds are newer, and in no other feed |
| `Notifications.MarkingOnlyMarks` | internal/store/query/notifications.sql.go:142-146 | marking changes no other user's row, no read row, and nothing but read_at |
| `Notifications.MarkingEmptiesUnread` | internal/store/query/notifications.sql.go:128-132 | each statement takes exactly the rows it names out of the owner's unread set |
| `Notifications.Service.List` | internal/notifications/service/service.go:50-91 | a page of the feed, its end reported truly, with the unread count |
| `Notifications.Service.MarkRead` | internal/notifications/service/service.go:96-107 | marks exactly that row, if it is an unread one of the user, with the given time; returns how many unread remain |
| `Notifications.Service.MarkAllRead` | internal/notifications/service/service.go:111-122 | marks exactly the user's unread rows and returns zero |
| `Notifications.Service.Create` | internal/notifications/service/service.go:126-137 | adds one unread notification with its metadata, or refuses a blank type or title and changes nothing |
| `Search.SearchIsSubstring` | internal/store/projectsrepo/projects.go:194-205 | for every term and text the escaped, trimmed, wrapped ILIKE pattern matches exactly the texts that contain the trimmed term, case aside; a blank term filters nothing |
| `Search.EscapedIsSubstring` | internal/store/projectsrepo/projects.go:203-205 | an escaped term wrapped in % is a well-formed pattern that matches exactly the texts containing the term |
| `Search.UnescapedFindsTooMuch` | internal/store/projectsrepo/projects.go:199-205 | without the escaping, a search for an underscore would find every text but the empty one |
| `Search.EscapedMatchesLiterally` | internal/store/projectsrepo/projects.go:203-205 | an escaped term at the head of a pattern matches itself and nothing else |
| `Search.SearchParamIs` | internal/store/projectsrepo/projects.go:194-197 | escaping and trimming commute |
| `Pagination.Normalize` | internal/http/pagination/pagination.go:63-86 | defaults for zero, an error exactly for a negative page or a page size outside 0 to 100 |
| `Pagination.PageIsTrueIff` | internal/store/projectsrepo/projects.go:89-95 | with the offset narrowed to 32 bits, a page request is answered with its page for every table exactly when (page - 1) * pageSize <= 2147483647 |
| `Pagination.PagesAreTheList` | internal/http/pagination/pagination.go:63-86 | the offset pages up to the total concatenate to the whole ordered list |
| `Pagination.SelectRange` | internal/store/query/projects.sql.go:159-177 | LIMIT and OFFSET cut the ordered list; a negative offset is an error |
| `Projects.ListedIffAccessible` | internal/store/query/projects.sql.go:114-122 | the list holds exactly the projects the user owns or is a member of, whose name or description contains the term, with the status asked for |
| `Projects.PagesListTheMatches` | internal/store/projectsrepo/projects.go:69-113 | reading the pages until the total is covered lists each of those once, newest first, and the total is their number |
| `Projects.ProjectStore.ListProjects` | internal/store/projectsrepo/projects.go:69-113 | one offset page of the matching projects with the number of all of them |
| `Projects.ProjectStore.GetProjectWithAccess` | internal/store/projectsrepo/projects.go:119-140 | exactly the owner and the members get the project, the owner with the owner's role and any other member with the role of the membership; a missing and a foreign project give the same error |
| `Projects.Service.ListProjects` | internal/projects/service/service.go:159-194 | malformed ids, page requests and statuses are refused; otherwise that page, which holds only projects the user owns or is a member of, that mention the term and have the status named |
| `Permissions.IsAssignable` | internal/auth/rbac/rbac.go:39-46 | true exactly for the catalog: not for the wildcard, not for unknown strings |
| `Permissions.NewSet` | internal/auth/rbac/rbac.go:56-62 | holds exactly the given strings |
| `Permissions.ListRoundTrip` | internal/auth/rbac/rbac.go:77-88 | a client that rebuilds a set from the list decides every catalog permission alike |
| `Permissions.GrantedInOrder` | internal/auth/rbac/rbac.go:77-88 | what is listed is in the order of the catalog, the wildcard first, and listed once |
| `Permissions.Set.List` | internal/auth/rbac/rbac.go:77-88 | the held permissions in catalog order, wildcard first, unknown strings dropped |
| `Permissions.NormalizePermissions` | internal/roles/service/service.go:379-394 | accepts exactly lists of catalog permissions, trimmed, and keeps first occurrences |
| `Sequences.DedupKeepsMembers` | internal/roles/service/service.go:379-394 | de-duplication keeps the members and leaves no repetition |
| `Sequences.DedupKeepsOrder` | internal/roles/service/service.go:379-394 | an element precedes another exactly as it first occurs before the other does |
| `Text.TrimSpaceIff` | internal/roles/service/service.go:363-376 | the trimmed text is the only one without space at its ends from which the original differs by space at its ends |
| `Text.Utf8TellsApart` | internal/auth/service/service.go:526-529 | the byte length that passwords and profile fields are limited by is that of the UTF-8 form, and no two texts have the same form |
| `RbacInterleaving.OnlyAdminHoldsWildcard` | internal/roles/service/service.go:225-234 | in every interleaving of authorisations, guards and transactions only the admin role holds *, and no other role is called admin |
| `Rbac.AnAdminRemains` | internal/users/service/service.go:153-270 | with each request one step, at least one active administrator always remains |
| `Rbac.AdminRemainsIff` | internal/store/usersrepo/users.go:128-171 | an update that commits leaves an active administrator exactly when there is another one than its target, or it leaves its target active and holding the admin role |
| `Rbac.UserUpdateIsExact` | internal/store/usersrepo/users.go:128-171 | what an update leaves: the target with exactly the requested roles, all existing, and its own status and profile columns changed as given; everybody else and all roles as they were |
| `Rbac.AdminsChangeOnlyByAdmins` | internal/users/service/service.go:190-231 | a user becomes, stops being, or as an administrator is enabled or disabled only by another active administrator's update of that user |
| `RbacInterleaving.EveryUserKeepsARole` | internal/users/service/service.go:329-347 | in every interleaving every signed-up user keeps a role and no assignment refers to a deleted role or a missing user |
| `Rbac.RoleUpdateIsExact` | internal/store/usersrepo/users.go:153-168 | a successful role update leaves the user with exactly the requested roles, all existing, and everybody else with theirs |
| `RbacOutcomes.RefusedActorsIff` | internal/http/handlers/users.go:204-212 | a request is answered unauthorized exactly when its actor is not an active user and forbidden exactly when no role assigned to the active actor is granted the wildcard or the endpoint's permission, users:manage for users and roles:manage for roles; one that goes through has both |
| `RbacOutcomes.CreateRoleOutcome` | internal/roles/service/service.go:152-208 | goes through exactly for a well-formed name, description and catalog permissions with the id and name unused, and then the role has exactly those, trimmed, and nothing else changes |
| `RbacOutcomes.UpdateRoleOutcome` | internal/roles/service/service.go:212-291 | goes through exactly for a custom role, a well-formed change of something and a name no other role has; each error exactly in its case; then exactly the given parts are replaced |
| `RbacOutcomes.DeleteRoleOutcome` | internal/roles/service/service.go:295-344 | goes through exactly for a custom role nobody has, and takes the role and its permissions away and nothing else |
| `RbacOutcomes.LateRefusals` | internal/store/rolesrepo/roles.go:113-177 | what a transaction is refused with when the role was deleted or assigned after its request passed the guards |
| `RbacOutcomes.UpdateUserSucceedsIff` | internal/users/service/service.go:153-270 | goes through exactly when the target is somebody else who exists, the request is well formed, its roles exist, and the actor may make administrators where it touches one; the errors for oneself, for want of privilege and for a missing target exactly in their cases |
| `RbacOutcomes.UpdateUserEffect` | internal/store/usersrepo/users.go:105-171 | the target has exactly the status, roles and trimmed profile the request gives and otherwise what it had; every other user, role and grant stays |
| `RbacOutcomes.SignUpOutcome` | internal/auth/service/service.go:468-474 | a new account is active with exactly the role called user and an empty profile, and nothing else changes |
| `RbacInterleaving.AuthorizedIffGranted` | internal/http/handlers/authz.go:18-23 | in an interleaved run a request gets past its authorisation exactly when its actor is then active and granted what it needs |
| `RbacInterleaving.ChangesWereAuthorized` | internal/http/handlers/users.go:204-212 | however requests interleave, apart from sign-ups the tables change only by the commit of a transaction of a request that an earlier step of the run authorised, when its actor was active and granted what it needs |
| `Rbac.ReplaceUserRolesReplaces` | internal/store/query/user_roles.sql.go:90-100 | insert and delete on one snapshot amount to plain replacement |
| `Rbac.ReplaceRolePermissionsReplaces` | internal/store/query/roles.sql.go:207-217 | the same for a role's permissions |
| `Rbac.CountMatchesIffAllExist` | internal/store/query/roles.sql.go:30-34 | the count check passes exactly when every requested id exists |
| `Rbac.GrantingIsAdmin` | internal/users/service/service.go:284-303 | holding the wildcard, holding a role called admin and holding the admin role are one thing in every reachable state |
| `RbacInterleaving.ChecksStayInCatalog` | internal/http/handlers/authz.go:18-23 | in every interleaving a permission check passes for something outside the catalog only through the wildcard |
| `Rbac.StepKeepsInv` | internal/store/rolesrepo/roles.go:75-177 | every request, refused or not, keeps the seeded roles, unique trimmed names, sound grants and assignments, and an active administrator |
| `RbacInterleaving.AdminThroughoutIff` | internal/users/service/service.go:226-262 | however requests interleave, an active administrator is there throughout exactly when every update that commits finds another one than its target or leaves its target one |
| `RbacInterleaving.AdminRemainsWhileActorsAreAdmins` | internal/users/service/service.go:226-262 | so one remains whenever every update that commits on an active administrator has an actor who still is one |
| `RbacInterleaving.AdminsCanDisableEachOther` | internal/users/service/service.go:226-262 | from any sound tables with exactly two active administrators, two requests whose guards both pass before either commits leave none |
| `RbacInterleaving.NobodyMayBeLeft` | internal/users/service/service.go:226-262 | such tables are reachable: from the migrated tables with the seeded administrator, for every second user, some run leaves no active administrator |
| `RbacInterleaving.AdminsAreMadeByAdmins` | internal/users/service/service.go:190-231 | in every interleaving a user becomes an administrator only by the commit of an update of that user whose actor was one when it was authorised |
| `RbacInterleaving.RunKeepsInv` | internal/store/rolesrepo/roles.go:75-177 | the seeded roles, unique trimmed names, sound grants and sound assignments survive anything happening between a request's steps |
| `RbacInterleaving.AtOnceIsHandle` | internal/users/service/service.go:153-270 | a request whose steps are taken at once is the atomic one |
| `RbacInterleaving.CallsEnd` | internal/users/service/service.go:226-262 | a call is over when its guards refuse it, its transaction has run or it is aborted, and only a commit that goes through changes the tables |
| `RbacService.Store.UpdateUser` | internal/store/usersrepo/users.go:105-171 | the transaction of an update: status, profile and roles together or, on an unknown role or user, nothing |
| `RbacService.Store.ReplaceUserRoles` | internal/store/query/user_roles.sql.go:90-100 | the two parts of the statement read the rows there were before it |
| `RbacService.Store.DeleteRole` | internal/store/query/roles.sql.go:77-82 | deletes exactly an unassigned custom role, with its permissions |
| `RbacService.Store.UpdateRole` | internal/store/rolesrepo/roles.go:113-151 | details and permissions together, or nothing when the name is taken or the role has been deleted meanwhile |
| `RbacService.Store.SignUp` | internal/auth/service/service.go:468-474 | a new account gets the role called user, or is not created |
| `RbacService.ParseRoleIds` | internal/users/service/service.go:329-347 | empty or malformed lists are refused; otherwise first occurrences in order |
| `RbacService.UserService.UpdateUser` | internal/users/service/service.go:153-270 | the whole request, authorisation, profile fields and refusals in their order, is the atomic step of the run; its change and its audit event come together or, on a failing statement or commit, not at all |
| `RbacService.RoleService.CreateRole` | internal/roles/service/service.go:152-208 | the same for creating a role |
| `RbacService.RoleService.UpdateRole` | internal/roles/service/service.go:212-291 | the same for updating a role |
| `RbacService.RoleService.DeleteRole` | internal/roles/service/service.go:295-344 | the same for deleting a role |
| `AuthTokens.AcceptedAtMostOnce` | internal/store/query/auth_tokens.sql.go:14-22 | over any interleaving a reset or verification token is accepted at most once |
| `AuthTokens.AcceptedIff` | internal/auth/service/service.go:1471-1487 | it is accepted exactly when stored for that purpose, unexpired and not accepted before |
| `AuthTokens.ResetIsAllOrNothing` | internal/auth/service/service.go:1344-1364 | an unused token is spent exactly when it is a live reset token and nothing fails; then the owner has the new password and no live session, one event is recorded and nobody else is touched, and otherwise nothing changes |
| `AuthTokens.VerifyIsAllOrNothing` | internal/auth/service/service.go:1400-1417 | the same for the verified flag, with every session kept |
| `AuthTokens.ResetEndsSessions` | internal/auth/service/service.go:1353-1363 | a committed reset ends every session of the user in any continuation of the rotation protocol |
| `AuthTokens.NewTokenSupersedes` | internal/auth/service/service.go:1300-1310 | a call whose two statements have nothing between them leaves only its own token working, and no earlier one of that user and purpose is ever accepted again |
| `AuthTokens.DeleteSupersedes` | internal/auth/service/service.go:1300-1310 | the delete alone supersedes: no token of that user and purpose issued before it is accepted in any continuation, even if its create is overtaken |
| `AuthTokens.OtherTokenWorksIff` | internal/auth/service/service.go:1300-1310 | whatever happens between the delete and the create, another token of the user and purpose works afterwards exactly when it was issued after the delete and works at the create |
| `AuthTokens.NewTokenIsOnlyOneIff` | internal/auth/service/service.go:1300-1310 | the new token is the only working one exactly when none of that user and purpose works at the moment of the create |
| `AuthTokens.UncontestedTokenIsOnlyOne` | internal/auth/service/service.go:1300-1310 | in particular it is whenever no other call creates one of that user and purpose between the delete and the create |
| `AuthTokens.InterleavedIssuesLeaveTwo` | internal/auth/service/service.go:1300-1310 | two issues whose deletes both come before either create leave two working tokens |
| `AuthTokenService.EarlierTokenStopsIff` | internal/auth/service/service.go:1300-1310 | since a failed delete is ignored, an earlier token stops exactly when the delete went through or it did not work anyway |
| `AuthTokenService.Transaction.ConsumeAuthToken` | internal/store/query/auth_tokens.sql.go:14-22 | spends at most one row, unused, unexpired and of the purpose, or changes nothing |
| `AuthTokenService.Service.ResetPassword` | internal/auth/service/service.go:1327-1390 | succeeds exactly for a new password of 8 to 4096 bytes, a live reset token and a transaction in which no step fails, with every effect of the reset committed; otherwise nothing is, and the error says which |
| `AuthTokenService.Service.VerifyEmail` | internal/auth/service/service.go:1394-1435 | the same for a live verification token and the verified flag |
| `AuthTokenService.Service.ChangePassword` | internal/auth/service/service.go:1123-1201 | succeeds exactly for an enabled user who gives the current password and an allowed new one and a transaction in which no step fails, with password, revocation and audit event committed together; each refusal exactly in its case, and then nothing changes |
| `AuthTokenService.DirectResetIsWholeIff` | internal/auth/service/service.go:1365-1378 | without a unit of work a reset that spent its token is whole exactly when no later step fails, and a password that cannot be stored costs the token all the same |
| `AuthTokenService.DirectResetEffects` | internal/auth/service/service.go:1365-1378 | which tables such a reset has changed for each step that can fail |
| `AuthTokenService.DirectVerificationEffects` | internal/auth/service/service.go:1418-1427 | the same for a verification |
| `AuthTokenService.DirectChangeEffects` | internal/auth/service/service.go:1190-1201 | the same for a password change |
| `AuthTokenService.DirectService.ResetPassword` | internal/auth/service/service.go:1327-1390 | without a unit of work the steps before the one that fails stay committed, and a failure to record the event goes unreported |
| `AuthTokenService.DirectService.VerifyEmail` | internal/auth/service/service.go:1394-1435 | the same for verification |
| `AuthTokenService.DirectService.ChangePassword` | internal/auth/service/service.go:1123-1201 | the same for a password change, after the same refusals |
| `AuthTokenService.AuthTokenStore.IssueAuthToken` | internal/auth/service/service.go:1491-1512 | stores a token that expires after an hour or a day as its purpose says, in place of the user's others of that purpose and of no others; a failed delete leaves those, a failed insert stores nothing |
| `AuthTokenService.IssuedTokenIsSpendable` | internal/auth/service/service.go:1471-1487 | what is issued can be spent, for its purpose only and exactly until it expires |
| `AuthTokenService.PurgeIsInvisible` | internal/store/query/auth_tokens.sql.go:88-91 | after a purge every presented token is accepted or refused as it would have been without it |
| `AuthTokenService.AuthTokenStore.ForgotPassword` | internal/auth/service/service.go:1278-1323 | an unknown or disabled account looks like success and changes nothing |
| `AuthTokenService.AuthTokenStore.PurgeConsumedOrExpired` | internal/store/query/auth_tokens.sql.go:88-91 | removes exactly used and expired tokens and counts them |
| `Base64.DecodeEncode` | internal/auth/password/password.go:80-81 | decoding an encoding gives the bytes back, in either alphabet |
| `Base64.EncodeDecodeIff` | internal/auth/password/password.go:157-170 | an accepted text is the encoding of its bytes exactly when it has no line break and no stray bits at the end |
| `Base64.LineBreaksAreIgnored` | internal/auth/password/password.go:157-170 | carriage returns and line feeds change nothing wherever they stand |
| `Base64.OthersAreRefused` | internal/auth/password/password.go:157-170 | any other character outside the alphabet is refused wherever it stands |
| `PasswordHash.ParseFormat` | internal/auth/password/password.go:126-178 | the form Hash prints is read back exactly for in-range parameters and salts and keys of 1 to 128 bytes, and refused otherwise |
| `PasswordHash.ParsePhc` | internal/auth/password/password.go:126-178 | decode inverts a printed PHC string of any algorithm, version, parameters, salt and key exactly for Argon2id in version 19 within the bounds, and otherwise says what is not supported |
| `PasswordHash.RefusalIff` | internal/auth/password/password.go:126-147 | of the texts of six parts, those of another algorithm and then of another version are refused as unsupported, and nothing else is |
| `Decimal.ScanSigned` | internal/auth/password/password.go:137-143 | the version is scanned with an optional sign, at least one digit and within 64 bits, up to the first character that is not a digit |
| `Decimal.BlanksMakeNoDifference` | internal/auth/password/password.go:137-147 | blanks before a number make no difference, and a line feed behind them is an error |
| `Decimal.NoDigitNoNumber` | internal/auth/password/password.go:137-147 | where no digit comes, no number is scanned |
| `PasswordHash.ParsedIsBounded` | internal/auth/password/password.go:148-175 | whatever decode accepts has six parts, names Argon2id and a version, and asks for bounded memory, time and lengths |
| `PasswordHash.Decode` | internal/auth/password/password.go:126-178 | the step-by-step decoder is the parser, with each error in its order |
| `PasswordHash.VerifyHashed` | internal/auth/password/password.go:101-121 | every password verifies against its own hash, whatever its parameters, salt and key length, and another one exactly when it derives the same key |
| `PasswordHash.Hash` | internal/auth/password/password.go:65-94 | decode reads the default parameters, the salt and a 32-byte key out of the result, which verifies its own password, and another one exactly when it derives the same key; an error without randomness |
| `PasswordHash.Verify` | internal/auth/password/password.go:101-121 | true exactly when the derived key equals the stored one |
| `KeysetCursor.CursorRoundTrip` | internal/http/handlers/system_events.go:126-150 | decoding a position's cursor gives the position, for every instant of years 0 to 9999 and every UUID |
| `KeysetCursor.CursorsAreDistinct` | internal/http/handlers/system_events.go:126-129 | different positions have different cursors |
| `KeysetCursor.ParseFormattedTime` | internal/http/handlers/system_events.go:127-127 | timestamps with trailing zeros of the fraction cut off are read back to the nanosecond |
| `KeysetCursor.ZonedTimeIsRead` | internal/http/handlers/system_events.go:140-144 | a local time with a zone behind it is read as the instant it means |
| `KeysetCursor.ZoneIsRead` | internal/http/handlers/system_events.go:140-144 | a signed offset of hours and minutes is read as that many seconds |
| `KeysetCursor.ReadTimesAreLaidOut` | internal/http/handlers/system_events.go:140-144 | nothing is read as a time whose separators are not in their places or that does not end in Z or such an offset |
| `KeysetCursor.ParsePrintedUuid` | internal/http/handlers/system_events.go:145-148 | a printed UUID is read back |
| `KeysetCursor.OtherFormsAreRead` | internal/http/handlers/system_events.go:145-148 | so is the form after a URN prefix, the form between two characters, and the bare digits |
| `KeysetCursor.OnlyThoseFormsAreRead` | internal/http/handlers/system_events.go:145-148 | no text of another length, with a dash missing or after another prefix is read as a UUID |
| `KeysetCursor.CaseMakesNoDifference` | internal/http/handlers/system_events.go:145-148 | hex digits mean the same in upper case |
| `Calendar.InstantOfFields` | internal/http/handlers/system_events.go:127-127 | the calendar fields printed for an instant determine it |
| `Calendar.LeapDays` | internal/http/handlers/system_events.go:127-127 | the days before a year follow the Gregorian rule of every fourth, hundredth and four hundredth year |

## Left out

- RateLimit.IPRateLimiter.Allow: the client key is taken as given, because reducing a remote address to a host is plumbing.
- RateLimit.Take: the limiter library's floating-point rounding and clock steps backwards are not modelled; buckets are exact, and the library's own clock reading is one step with the token it takes.
- RedisRateLimit.RedisRateLimiter.Allow: the two clock readings of a fallback call are one.
- RateLimit.ParamsOf: overflow of twice the window is not modelled.
- LockoutInFlight.BoundIsAttained: shown without delay and with at most maxAttempts attempts at once. With short delays the exact bound is ShortDelayBoundIsAttained's, from two attempts at once on; with longer ones, or more attempts, the general bound may not be reached.
- LockoutInFlight.GuessesPerInterval: counts the failures the store recorded; one whose update fails is not counted by the code either.
- SessionStore.SessionService.Refresh: access-token signing and the refusal to refresh during impersonation are not modelled.
- MfaService.EnabledSecretIsConfirmed: holds with each call one step; `Mfa.SecretInForceIsCheckedIff` says when it holds otherwise.
- Notifications.Service.List: the page and the unread count are read with nothing between them.
- Projects.ProjectStore.ListProjects: the total and the page are read with nothing between them.
- Projects.ProjectStore: creating, updating and archiving projects and managing members are left out; they would add easy members.
- Search.SearchIsSubstring: folding is character by character, so case foldings that change a text's length are not modelled.
- RbacService.UserService.UpdateUser: the parsing of the status text and the details in the audit event's metadata are left out, as is the path without a unit of work.
- Rbac.AnAdminRemains: holds with each request one step; `RbacInterleaving.AdminThroughoutIff` says when it holds otherwise.
- RbacInterleaving.AdminThroughoutIff: the reads of one authorisation are one step, and so are those of one request's guards.
- AuthTokenService.Service.ResetPassword: the failure events recorded outside the transaction, and alerts, are not in the audit table.
- KeysetCursor.DecodeCursor: timestamps that only the lenient fallback of Go's time.Parse accepts count as malformed.
- PasswordHash.Verify: constant-time comparison is not modelled.
- HTTP registration, cookies, CORS, security headers, metrics, tracing, logging and request ids: plumbing.
- Email, background jobs and security alerts: foreign systems with no effect on the tables modelled.
- Isolation anomalies below statement level, clock skew between hosts and lost database connections, except as the failures of a unit of work.
