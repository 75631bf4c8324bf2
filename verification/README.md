# Verification of the API's protocols and state machines

A Dafny model of the parts of the API whose correctness spans many calls, processes or
moments, and proofs of what they promise. `dafny verify dfyconfig.toml` checks all of it.

| file | what it models |
|---|---|
| `RefreshRotation.dfy` | refresh-token rotation over Redis, one command at a time, any number of calls interleaved |
| `SessionService.dfy` | the session store and its per-user index, methods one at a time, with other processes around every command of a rotation |
| `AuthService.dfy` | login, refresh and logout over that store, and the verified-e-mail check |
| `CanonicalJson.dfy` | the canonical JSON text behind a report manifest's checksum, with a parser |
| `CsvArtifact.dfy` | CSV rendering, with an RFC 4180 parser |
| `BillingLifecycle.dfy` | the poll-driven subscription state machine |
| `BillingAccess.dfy` | the cached access record and the request guard on top of it |
| `CircuitBreaker.dfy` | circuit breakers with starts and completions as separate steps |
| `ActionTokens.dfy` | one-time recovery, verification and invitation tokens |
| `RequestTransactions.dfy` | nested transactions of one request |
| `Admissions.dfy` | registration and the academic lifecycle, with section capacities, beside the students service |
| `ObjectKeys.dfy` | object keys, their URL encoding and the tenant check on storage paths |
| `Common.dfy`, `Text.dfy` | options, and the string operations the services share |

Objects whose methods change their fields are classes; each method is proved against a
function on values, and the theorems are about every sequence of those functions. Times
are milliseconds. A JavaScript string is a sequence of UTF-16 code units where surrogates
matter (`CanonicalJson`) and of characters elsewhere.

What the model takes as given:

- Row ids, session ids, refresh-token ids and token hashes are fresh when drawn.
- Redis: each rotation owns its WATCH, so two rotations of one session are those of two API
  processes (the client is shared within one, `apps/api/src/infrastructure/redis/redis.service.ts:49-51`);
  a key that expires is a delete that WATCH sees; only the session service writes session keys.
- PostgreSQL: a failed statement aborts its transaction, and COMMIT of an aborted transaction
  succeeds as a rollback. Each stored procedure, and each admissions or invitation call, is
  one atomic step; the locked class section stays locked through its call. The uniqueness
  constraints named in the schema files hold.
- One request's database work is sequential: no two calls run at once over one request context.
- No user account is deleted in a run of the token procedures (`apps/api/src/modules/compliance/compliance.service.ts:119-129`
  deletes one, and its tokens go with it).
- Repositories answer for their tables: a tenant has one current subscription row, a renewal
  window update overwrites the fields it is given and leaves the others, a user found by id
  has that id.
- A cached access record comes back from Redis as it was written, and the clock reads the
  same when a record is resolved and when it is cached. The HTTP method reaching the guard is
  in upper case.

Where the code and its comments or the expected behaviour part, the model follows the code:

- The circuit breaker's comments promise one probe while half open; the code lets every
  start through, and keeps to one exactly when its callers do
  (`CircuitBreaker.OneProbeOfStartsIff`, `CircuitBreaker.SingleProbeIff`).
- A callback that catches a failed query inside a transaction returns normally, yet nothing
  it wrote becomes visible (`RequestTransactions.OutermostTransaction`,
  `RequestTransactions.TransactionGoesAsTold`).
- A rotation that loses its EXEC to another rotation goes round once more, sees the other's
  token id as reuse and deletes the session (`SessionService.ReuseDetectedIff`,
  `SessionService.LoserEndsTheSession`).
- `consume_email_verification_action` names the column `email` bare in its UPDATE of users,
  and `consume_invite_acceptance_action` names `tenant_id` and `user_id` bare in ON CONFLICT,
  and `email` and `user_id` in its UPDATE of student_guardians; all are columns of the
  procedures' results too. PostgreSQL raises on such names unless
  `plpgsql.variable_conflict` is `use_column`, so by default neither procedure ever honours a
  token. The setting is an input of the model: the theorems hold for both, and
  `ActionTokens.OnlyRecoveriesByDefault` says what is left at the default.
- The access cache agrees with an uncached resolution up to a TTL of twelve days, the
  five-day warning window plus the grace week, and no further
  (`BillingAccess.CachedGrantIsCurrent`, `BillingAccess.LongerTtlServesStaleGrant`).
- Should a canceled or expired subscription reach the lifecycle step, it gets full access
  again for a week after its paid period (`BillingLifecycle.EndedSubscriptionRevives`).
- A table without rows and a row without cells do not survive CSV
  (`CsvArtifact.ReadCsvUndoesIff`).
- A promotion to a class without a section, in the year of the current enrolment, overwrites
  that enrolment (`Admissions.PromotionKeepsHistoryIff`); editing a registered application
  back to approved lets it admit another student (`Admissions.AdmitsAgainIff`).
- The students service sets any status at any time, so a student may be active without an
  enrolment, and a graduate active again (`Admissions.StepEstrangesIff`,
  `Admissions.DepartureIsFinal`).
- Tenant ids with slashes can share storage paths (`ObjectKeys.SharedPathIff`).

## Model

| member | source | states |
|---|---|---|
| `RefreshRotation.AtMostOneSuccess` | apps/api/src/auth/session.service.ts:114-166 | in every interleaving of rotations, logins, single and per-user invalidations and expiries, at most one rotation call succeeds for a given session and presented refresh-token id |
| `RefreshRotation.HeldIdsAreAChain` | apps/api/src/auth/session.service.ts:143-161 | the token ids a session has held never repeat; each one after the first was put there by exactly one successful rotation, the one that presented its predecessor; a live session holds the last |
| `RefreshRotation.ConflictUnreachable` | apps/api/src/auth/session.service.ts:126-165 | no call ever throws the ConflictException, and no call ever sends a third EXEC |
| `RefreshRotation.RefusedExec` | apps/api/src/auth/session.service.ts:126-165 | from any state at all a refused EXEC writes nothing, and the call goes round after its first and second and gives up after its third |
| `RefreshRotation.ExpiryMayStrike` | apps/api/src/auth/session.service.ts:180-185 | in any state a session may expire: its key is deleted, its version moves if it was there, and nothing else changes |
| `RefreshRotation.EndsBySecondAttempt` | apps/api/src/auth/session.service.ts:126-160 | a call that presents an id the session had when it began sends EXEC once only; after a failed EXEC the session is gone or has another id at every later moment |
| `RefreshRotation.DeletedStaysDeleted` | apps/api/src/auth/session.service.ts:71-91 | a session id once stored and then deleted is never stored again, however the run goes on |
| `RefreshRotation.SupersededTokenEndsSession` | apps/api/src/auth/session.service.ts:137-141 | a finished call that presented a superseded id, or reported reuse, did not succeed, and its session is gone for good |
| `RefreshRotation.FailureIsExplained` | apps/api/src/auth/session.service.ts:126-160 | in every interleaving a finished rotation that presented an id its session had succeeded, or reports reuse because another rotation succeeded with the same id and the session's last id is another, or reports an expired session because the session is gone; nothing else |
| `RefreshRotation.StartedRotationEnds` | apps/api/src/auth/session.service.ts:114-166 | told from the moment a rotation starts with an id its session has had, whatever runs before and after: it succeeds only with an id not yet superseded, and any other end means another success with that id or a session gone for good |
| `RefreshRotation.AloneItRotates` | apps/api/src/auth/session.service.ts:126-160 | a rotation presenting the session's current id, run alone from any state, succeeds in three commands: same user, next id, nothing else changed |
| `RefreshRotation.AloneItDetectsReuse` | apps/api/src/auth/session.service.ts:137-141 | a rotation presenting any other id, run alone, reports reuse, deletes the session and takes its id out of its user's index |
| `RefreshRotation.AloneItExpires` | apps/api/src/auth/session.service.ts:131-135 | a rotation of a session that is gone says so and changes nothing |
| `RefreshRotation.AloneItDrops` | apps/api/src/auth/session.service.ts:71-80 | an invalidation run alone deletes the key and its entry in its user's index, and nothing else |
| `RefreshRotation.AloneItLogsOutAll` | apps/api/src/auth/session.service.ts:82-91 | an invalidation of a user's sessions, run alone, deletes exactly the sessions its index lists, whatever their order, and the index |
| `RefreshRotation.LoginThenRotation` | apps/api/src/auth/session.service.ts:38-166 | a user who logs in and refreshes with the token given, with nobody in between, has the next token in the same session |
| `RefreshRotation.UserInvalidationIsFinal` | apps/api/src/auth/session.service.ts:82-91 | once an invalidation of all of a user's sessions has finished, every session among the members it read is gone for the rest of the run, whatever was interleaved with it |
| `RefreshRotation.ReachableInv` | apps/api/src/auth/session.service.ts:38-166 | the invariant behind these holds after every interleaving from the empty store |
| `RefreshRotation.StepEvolves` | apps/api/src/auth/session.service.ts:71-166 | one Redis command of any call moves each session's key only forwards: held ids grow, a version that did not move means the key did not change, a moved version supersedes every id held before |
| `SessionService.SessionStore.CreateSession` | apps/api/src/auth/session.service.ts:38-59 | the session is stored and added to its user's index; nothing else changes; every live session stays indexed |
| `SessionService.SessionStore.InvalidateSession` | apps/api/src/auth/session.service.ts:71-80 | the key is deleted and, if there was a session, its id leaves its own user's index and no other index changes |
| `SessionService.SessionStore.InvalidateUserSessions` | apps/api/src/auth/session.service.ts:82-91 | the user is left with no live session and no index; exactly the user's live sessions are deleted; other users' sessions and indexes are as before |
| `SessionService.SessionStore.ListUserSessions` | apps/api/src/auth/session.service.ts:93-112 | lists exactly the user's live sessions, each once, newest first, and leaves the user's index equal to them and every other index alone |
| `SessionService.SessionStore.RotateRefreshToken` | apps/api/src/auth/session.service.ts:114-166 | the retry loop, with anything other processes may do to the key before WATCH, between WATCH and GET and between GET and EXEC of each attempt, ends with the verdict and the key of the attempts one after another, and touches no other session; after reuse the id has left its user's index, and otherwise no index moved |
| `SessionService.ConflictIffTokenRewritten` | apps/api/src/auth/session.service.ts:126-165 | the loop gives up exactly when every attempt finds the presented token id, as the other processes alone leave it, and has its EXEC refused |
| `SessionService.DecidedBy` | apps/api/src/auth/session.service.ts:126-165 | the first attempt whose GET does not find the presented id, or whose EXEC applies, gives the verdict, told from the writes of the other processes alone |
| `SessionService.ReuseDetectedIff` | apps/api/src/auth/session.service.ts:137-141 | reuse is reported exactly when some GET finds the session with another token id while every attempt before it found the presented id and had its EXEC refused |
| `SessionService.OvertakenIff` | apps/api/src/auth/session.service.ts:137-141 | with writes only between GET and EXEC: exactly when the session has another id from the start, or some EXEC but the last is refused by a write of another id with only writes of the presented id before it |
| `SessionService.FreshTokensGoRoundOnce` | apps/api/src/auth/session.service.ts:126-165 | when no other process writes the presented id, a second attempt never finds it again and the call never gives up |
| `SessionService.LoserEndsTheSession` | apps/api/src/auth/session.service.ts:137-141 | with fresh token ids, a call whose first EXEC is refused leaves no session: it reports reuse if the next GET finds one and an expired session otherwise |
| `SessionService.RotatesIff` | apps/api/src/auth/session.service.ts:126-160 | a rotation succeeds exactly when some GET finds the presented id, its EXEC is not refused, and every attempt before it went round |
| `SessionService.RotationRenews` | apps/api/src/auth/session.service.ts:143-161 | what a success stores and returns: same session id, owner, tenant, audience and creation date, and the token, role, permissions, verification date and expiry of the call, updated at its instant |
| `SessionService.SafeRecordIsTheSession` | apps/api/src/auth/session.service.ts:187-204 | a listed record has the session's fields and does not depend on its token or verification date |
| `SessionService.SortNewestSorts` | apps/api/src/auth/session.service.ts:109-111 | the listing order is newest first and a permutation of what was collected |
| `SessionService.IndexNamesTheLive` | apps/api/src/auth/session.service.ts:82-91 | deleting the keys an index names deletes exactly the user's live sessions |
| `AuthService.SensitiveCheckNeverRejects` | apps/api/src/auth/auth.service.ts:78-111 | after any run of login, parent-portal login, refresh, logout and expiry from an empty store, with other processes rotating and deleting sessions during each refresh, the e-mail check for sensitive sessions rejects no session; an access token is accepted exactly when it agrees with the request and with a live session |
| `AuthService.RunKeepsInv` | apps/api/src/auth/auth.service.ts:295-446 | every stored session with a sensitive permission has a verification date; the superadmin audience goes with no tenant and the platform-owner role, and back |
| `AuthService.SessionKeepsItsScope` | apps/api/src/auth/auth.service.ts:152-218 | a stored session never changes its user, tenant or audience while it lives, whatever is refreshed |
| `AuthService.StaleTokenEndsSession` | apps/api/src/auth/auth.service.ts:172-179 | of a session in order, a refresh that the tenant checks let through reports reuse exactly when the token names another user, tenant or token id, its claimed audience adding nothing; the session is then gone |
| `AuthService.ResolvePermissions` | apps/api/src/auth/auth.service.ts:573-582 | a sensitive permission survives only for a verified user, and the permissions are the granted ones exactly when they hold nothing sensitive or the user is verified |
| `AuthService.SensitiveIff` | apps/api/src/auth/auth.service.ts:597-606 | the sensitive permissions are those ending in :write, :manage, :create, :delete or :* |
| `AuthService.LoginIff` | apps/api/src/auth/auth.service.ts:119-358 | a login succeeds exactly for an active account with a matching password and a passed challenge, and for the superadmin audience the system owner's, for any other one with a membership |
| `AuthService.LoginSession` | apps/api/src/auth/auth.service.ts:295-446 | which session a login stores, field by field, with what rights |
| `AuthService.ParentSession` | apps/api/src/modules/integrations/parent-portal-auth.service.ts:137-151 | the parent's session has all the role's permissions and is verified as of the login |
| `AuthService.RefreshAllowedIff` | apps/api/src/auth/auth.service.ts:152-190 | exactly when a refresh gets as far as the rotation: tenant, session, user, token id, audience, account and membership |
| `AuthService.RefreshedSession` | apps/api/src/auth/auth.service.ts:192-218 | a refresh that succeeds stores the same session with the account's role and rights of now, the new token id, instant and expiry |
| `AuthService.AloneItRefreshes` | apps/api/src/auth/auth.service.ts:152-218 | with nobody else at the session every refresh that is allowed succeeds |
| `AuthService.AuthService.LoginUser` | apps/api/src/auth/auth.service.ts:119-150 | stores the session the checks allow, or nothing, and keeps the invariant |
| `AuthService.AuthService.LoginParent` | apps/api/src/modules/integrations/parent-portal-auth.service.ts:137-151 | stores a portal session verified as of now, and keeps the invariant |
| `AuthService.AuthService.CheckRefresh` | apps/api/src/auth/auth.service.ts:152-190 | the checks of a refresh refuse in the order of the specification, tenant and platform paths alike |
| `AuthService.AuthService.RefreshTokens` | apps/api/src/auth/auth.service.ts:152-218 | refuses without touching the store, refuses and deletes the session, or rotates it amid whatever other processes do to its key, as the specification says, and keeps the invariant |
| `AuthService.AuthService.Logout` | apps/api/src/auth/auth.service.ts:220-230 | deletes the session and keeps the invariant |
| `AuthService.AuthService.AuthenticateAccessToken` | apps/api/src/auth/auth.service.ts:78-111 | changes no session and never ends in the unverified-e-mail branch |
| `CanonicalJson.ParseInvertsCanonical` | apps/api/src/common/reports/report-snapshot-manifest.ts:193-206 | a JSON parser gives back from the canonical text of a JSON value the value with its objects as key-to-value maps |
| `CanonicalJson.CanonicalIffSameMeaning` | apps/api/src/common/reports/report-snapshot-manifest.ts:193-206 | two JSON values have the same canonical text exactly when they are equal up to key order at every depth |
| `CanonicalJson.SortIgnoresOrder` | apps/api/src/common/reports/report-snapshot-manifest.ts:200-205 | members with the same keys and texts sort to the same list, whatever order they came in |
| `CanonicalJson.ReadStringUndoes` | apps/api/src/common/reports/report-snapshot-manifest.ts:194-195 | reading a quoted string back gives the string, for all code units, surrogate pairs and lone surrogates |
| `CanonicalJson.EscapesAs` | apps/api/src/common/reports/report-snapshot-manifest.ts:194-195 | each code unit is escaped by its two-character form where JSON has one, in six characters with lower-case digits for other control characters and lone surrogates, and not at all otherwise |
| `CanonicalJson.EscapeKeepsIff` | apps/api/src/common/reports/report-snapshot-manifest.ts:194-195 | a string is quoted as it stands exactly when it holds no control character, quotation mark, backslash or lone surrogate |
| `CanonicalJson.Punctuation` | apps/api/src/common/reports/report-snapshot-manifest.ts:193-206 | the brackets, commas, colons, quotes and literal words are JSON's |
| `CanonicalJson.NumberUnits` | apps/api/src/common/reports/report-snapshot-manifest.ts:205-205 | a number's text holds only digits, signs, a point and an exponent mark |
| `CanonicalJson.BelowIff` | apps/api/src/common/reports/report-snapshot-manifest.ts:201-201 | keys are compared by the first code unit in which they differ, a proper prefix coming first |
| `CanonicalJson.SortSorts` | apps/api/src/common/reports/report-snapshot-manifest.ts:200-202 | sorting gives a permutation of the members with strictly ascending keys |
| `CanonicalJson.ChecksumInputIffSameManifest` | apps/api/src/common/reports/report-snapshot-manifest.ts:56-79 | two manifests have the same checksum input exactly when they are equal up to key order inside their filters |
| `CanonicalJson.ChecksumInputReadsBack` | apps/api/src/common/reports/report-snapshot-manifest.ts:56-79 | the checksum input parses to an object of exactly the nine manifest members, each with its field |
| `CanonicalJson.ArtifactReadsBack` | apps/api/src/common/reports/report-snapshot-manifest.ts:63-69 | and its artifact member to an object of exactly five |
| `CsvArtifact.ReadFieldUndoes` | apps/api/src/common/reports/report-csv-artifact.ts:33-46 | an RFC 4180 field reader gives back any field, whatever quotes, commas and line ends it holds |
| `CsvArtifact.QuotedIff` | apps/api/src/common/reports/report-csv-artifact.ts:41-45 | a field is printed as it stands exactly when it holds no quotation mark, comma or line end |
| `CsvArtifact.CellReadsBack` | apps/api/src/common/reports/report-csv-artifact.ts:33-40 | each kind of cell reads back as its text: words for booleans, nothing for null and undefined |
| `CsvArtifact.ReadRecordUndoes` | apps/api/src/common/reports/report-csv-artifact.ts:29-31 | a record of any fields reads back |
| `CsvArtifact.ReadCsvUndoes` | apps/api/src/common/reports/report-csv-artifact.ts:29-46 | parsing undoes rendering, cell by cell as strings, for every non-empty list of non-empty rows |
| `CsvArtifact.ReadCsvUndoesIff` | apps/api/src/common/reports/report-csv-artifact.ts:29-46 | and for no other list: an empty table and an empty row print like a row of one empty cell |
| `CsvArtifact.ArtifactReadsBack` | apps/api/src/common/reports/report-csv-artifact.ts:14-27 | a report artifact reads back as its headers and rowCount rows, the rows given |
| `BillingLifecycle.BillingLifecycleService.EnsureCurrentLifecycle` | apps/api/src/modules/billing/billing-lifecycle.service.ts:33-93 | writes the tenant's row as one step of the state machine says, and no other row; returns the stored row with its overview; queues a notice exactly for the states that notify |
| `BillingLifecycle.PolledIsClosedForm` | apps/api/src/modules/billing/billing-lifecycle.service.ts:230-302 | for a fresh subscription, trials included, and any non-decreasing polls the stored row is the closed form: unchanged up to the boundary, past_due for the grace week, then restricted for a week from the first later poll and suspended after that |
| `BillingLifecycle.OverviewAsTold` | apps/api/src/modules/billing/billing-lifecycle.service.ts:95-186 | after any non-decreasing polls of a fresh row the whole overview, every date and flag, is a function of the polls and the boundary alone, with 5, 7 and 14 days as numbers |
| `BillingLifecycle.NoticeFromWarningOn` | apps/api/src/modules/billing/billing-lifecycle.service.ts:33-93 | an untroubled state is shown, and no notice queued, exactly until five days before the boundary; trials and paid periods each show their own |
| `BillingLifecycle.StepByDates` | apps/api/src/modules/billing/billing-lifecycle.service.ts:230-296 | of any row at all, the whole row a poll leaves, by the dates and status on it |
| `BillingLifecycle.OverviewOfAnyRow` | apps/api/src/modules/billing/billing-lifecycle.service.ts:95-186 | of any row at all, exactly when each state and mode is shown, and every date, reason and flag of the overview |
| `BillingLifecycle.SuspendedInTime` | apps/api/src/modules/billing/billing-lifecycle.service.ts:230-296 | polls at most delta apart have suspended the subscription by two weeks and delta after the boundary |
| `BillingLifecycle.SuspendedByDeadline` | apps/api/src/modules/billing/billing-lifecycle.service.ts:230-296 | one of those polls comes no later than two weeks and two deltas after the boundary and finds it suspended |
| `BillingLifecycle.StepInEveryReachableState` | apps/api/src/modules/billing/billing-lifecycle.service.ts:33-93 | in every state reached from a fresh row one poll is idempotent, lowers no rank, shows the status it stores, and gives full access exactly until the end of the grace week of the original boundary |
| `BillingLifecycle.StepWritesDatesOnce` | apps/api/src/modules/billing/billing-lifecycle.service.ts:230-296 | of any row at all, a step writes the grace, restricted and suspended dates only where there is none, and no other column but status and reason |
| `BillingLifecycle.StepLowersRankIff` | apps/api/src/modules/billing/billing-lifecycle.service.ts:230-296 | beyond the reachable states, exactly which rows and times let a step lower the rank |
| `BillingLifecycle.EndedSubscriptionRevives` | apps/api/src/modules/billing/billing-lifecycle.service.ts:230-302 | a canceled or expired row without lifecycle dates stays billing-only exactly while polled within its paid period; a later poll gives full access for a week, then read-only |
| `BillingAccess.BillingAccessService.ResolveForTenant` | apps/api/src/modules/billing/billing-access.service.ts:44-65 | serves the request's own record, else the cached one, else resolves, caches unless the record bypasses the cache, and counts hits, misses, writes and errors; a failing Redis costs only the cache |
| `BillingAccess.BillingAccessService.ReadFromCache` | apps/api/src/modules/billing/billing-access.service.ts:162-179 | gives the unexpired cached record, or none, and counts a failed read |
| `BillingAccess.BillingAccessService.WriteToCache` | apps/api/src/modules/billing/billing-access.service.ts:181-207 | writes only records outside the warning window and grace states, and counts a failed write |
| `BillingAccess.BillingAccessService.InvalidateTenant` | apps/api/src/modules/billing/billing-access.service.ts:67-78 | drops the tenant's entry |
| `BillingAccess.BillingAccessService.ServedIff` | apps/api/src/modules/billing/billing-access.service.ts:162-179 | a record is served exactly while Redis answers with one written less than the TTL ago that shows neither warning nor grace; without Redis or with TTL 0 none is |
| `BillingAccess.MemoizedIff` | apps/api/src/modules/billing/billing-access.service.ts:45-49 | the request's own record is used exactly when it carries one of that tenant |
| `BillingAccess.CachedGrantIsCurrent` | apps/api/src/modules/billing/billing-access.service.ts:44-65 | with a TTL of at most twelve days a record served from the cache grants the mode, activity, plan and features an uncached resolution would grant at that moment, after any run of resolutions and invalidations |
| `BillingAccess.LongerTtlServesStaleGrant` | apps/api/src/modules/billing/billing-access.service.ts:202-207 | for every longer TTL some run serves full access from the cache where an uncached resolution gives read-only |
| `BillingAccess.CachedDecisionIsCurrent` | apps/api/src/guards/billing-lifecycle.guard.ts:21-58 | the guard and the feature gate decide from the cache as they would without it |
| `BillingAccess.ModeFollowsStatus` | apps/api/src/modules/billing/billing-access.service.ts:117-160 | in every reachable state the access mode is determined by the stored status |
| `BillingAccess.PermittedRequestsShrink` | apps/api/src/guards/billing-lifecycle.guard.ts:21-66 | along any polls without renewal, every request the guard permits later it permitted before |
| `BillingAccess.RequestsPermittedWhen` | apps/api/src/guards/billing-lifecycle.guard.ts:21-58 | the guard's decision in terms of the polls alone: every request up to the first poll after the grace week, reads only for a week from that poll, then none outside the always-allowed paths |
| `BillingAccess.RankGrows` | apps/api/src/modules/billing/billing-lifecycle.service.ts:230-296 | the status rank never falls along any polls of a fresh subscription |
| `BillingAccess.AccessAsTold` | apps/api/src/modules/billing/billing-access.service.ts:117-160 | the whole access record after any polls of a fresh row; the tenant is active exactly until it is suspended |
| `BillingAccess.FeatureAsTold` | apps/api/src/modules/billing/billing-access.service.ts:109-115 | a feature is open exactly while the tenant is not suspended and the plan lists it or the star |
| `BillingAccess.BypassFromWarningOn` | apps/api/src/modules/billing/billing-access.service.ts:202-207 | a record is kept out of the cache exactly from five days before the boundary on |
| `BillingAccess.ServedUntilTtl` | apps/api/src/modules/billing/billing-access.service.ts:162-200 | what one resolution leaves to be served: a record resolved before the warning window, or of no subscription, for exactly the TTL |
| `BillingAccess.AlwaysAllowedIff` | apps/api/src/guards/billing-lifecycle.guard.ts:60-66 | the paths open to every tenant, listed |
| `BillingAccess.GuardWithoutSubscription` | apps/api/src/guards/billing-lifecycle.guard.ts:21-58 | without a tenant, or on such a path, a request is let through; a tenant without a subscription is otherwise refused, and has no feature |
| `CircuitBreaker.CircuitRecord.TransitionTo` | apps/api/src/infrastructure/resilience/circuit-breaker.service.ts:173-185 | sets the state and the time of the change, and no counter |
| `CircuitBreaker.CircuitRecord.OnSuccess` | apps/api/src/infrastructure/resilience/circuit-breaker.service.ts:127-146 | a completed success in any state leaves the record the state machine says |
| `CircuitBreaker.CircuitRecord.OnFailure` | apps/api/src/infrastructure/resilience/circuit-breaker.service.ts:148-171 | a completed failure in any state leaves the record the state machine says |
| `CircuitBreaker.CircuitBreakerService.Start` | apps/api/src/infrastructure/resilience/circuit-breaker.service.ts:63-86 | creates the circuit on first use, rejects with the remaining wait while it is open and the timeout has not passed, else lets the call through, half open after an open spell; other circuits keep their records |
| `CircuitBreaker.CircuitBreakerService.Reset` | apps/api/src/infrastructure/resilience/circuit-breaker.service.ts:117-125 | closes a known circuit with both counters at zero |
| `CircuitBreaker.CircuitBreakerService.Register` | apps/api/src/infrastructure/resilience/circuit-breaker.service.ts:55-57 | sets the named circuit's configuration to the fields given, the defaults for the rest, and touches no record |
| `CircuitBreaker.CountersMeanWhatTheyClaim` | apps/api/src/infrastructure/resilience/circuit-breaker.service.ts:63-171 | in every interleaving of starts, late completions and resets: closed means failure_count is the trailing run of failures since entering closed and below its threshold; half open means success_count is the completed successes since entering it, below its threshold, with no failure; outside half open success_count is 0 |
| `CircuitBreaker.ClosesOnlyAfterSuccesses` | apps/api/src/infrastructure/resilience/circuit-breaker.service.ts:127-171 | from open to closed without a reset there is a stretch of completions with success_threshold successes and no failure |
| `CircuitBreaker.NextAsTold` | apps/api/src/infrastructure/resilience/circuit-breaker.service.ts:63-185 | after every run, whatever failed before, each start, success, failure and reset moves the circuit to the state told from the completions since it entered its state, dates the change, and leaves a closed circuit with both counters at zero |
| `CircuitBreaker.LastSuccessCloses` | apps/api/src/infrastructure/resilience/circuit-breaker.service.ts:127-146 | in every run the success that makes up the threshold leaves the circuit closed with both counters at zero |
| `CircuitBreaker.SuccessesClose` | apps/api/src/infrastructure/resilience/circuit-breaker.service.ts:63-146 | the converse: a circuit whose timeout has passed closes after success_threshold completed successes with no failure or reset among them, and not before |
| `CircuitBreaker.Defaults` | apps/api/src/infrastructure/resilience/circuit-breaker.service.ts:28-32 | what is not configured: five failures, thirty seconds, two successes |
| `CircuitBreaker.HalfOpenAdmitsEveryStart` | apps/api/src/infrastructure/resilience/circuit-breaker.service.ts:3-86 | once the timeout has passed and until something completes, every start is let through, where the comments promise a single probe |
| `CircuitBreaker.OneProbeOfStartsIff` | apps/api/src/infrastructure/resilience/circuit-breaker.service.ts:63-86 | while nothing completes, an open circuit lets at most one of a list of starts through exactly when at most one of them comes once the timeout has passed |
| `CircuitBreaker.SingleProbeIff` | apps/api/src/infrastructure/resilience/circuit-breaker.service.ts:63-185 | in every interleaving of starts, late completions and resets, a half-open circuit has at most one call in flight at every moment exactly when no call begins as a probe while another is in flight |
| `CircuitBreaker.TrafficRuns` | apps/api/src/infrastructure/resilience/circuit-breaker.service.ts:63-185 | telling the calls apart does not change what the circuit does |
| `CircuitBreaker.FailingCircuit` | apps/api/src/infrastructure/resilience/circuit-breaker.service.ts:63-171 | non-overlapping calls of an operation that always fails: failure_count is the number of attempts, the circuit is open exactly from the threshold on, and later attempts are a timeout apart |
| `CircuitBreaker.AttemptsBackOff` | apps/api/src/infrastructure/resilience/circuit-breaker.service.ts:63-86 | attempt number failure_threshold + k starts no earlier than k timeouts after the circuit first opened |
| `CircuitBreaker.AttemptsInSpan` | apps/api/src/infrastructure/resilience/circuit-breaker.service.ts:63-86 | any span holds at most failure_threshold plus its length in timeouts attempts |
| `ActionTokens.ActionTokenStore.CreateAction` | apps/api/src/auth/auth-schema.service.ts:411-591 | create_password_recovery_action and create_email_verification_action: refuse outside their request, else supersede the user's pending tokens of that purpose, insert the new one and queue the mail |
| `ActionTokens.ActionTokenStore.ConsumeRecovery` | apps/api/src/auth/auth-schema.service.ts:638-710 | honours only an unconsumed, unexpired recovery token of an active user; sets the password and consumes the token |
| `ActionTokens.ActionTokenStore.ConsumeVerification` | apps/api/src/auth/auth-schema.service.ts:712-783 | honours only such a token whose address is still the user's, and only on a server that resolves the bare column name; sets the verification date once and consumes the token |
| `ActionTokens.ActionTokenStore.ConsumeInvite` | apps/api/src/auth/auth-schema.service.ts:785-940 | honours only such an invitation with a tenant and a known role, and only on a server that resolves the bare column names; creates or updates the user, grants the membership, consumes the token; a refusal changes nothing |
| `ActionTokens.ActionTokenStore.CreateInvitation` | apps/api/src/auth/tenant-invitations.service.ts:438-528 | supersedes the pending invitations of the tenant and address and inserts a new one, or leaves everything as it was when the mail fails |
| `ActionTokens.ActionTokenStore.ResendInvitation` | apps/api/src/auth/tenant-invitations.service.ts:184-265 | gives a pending managed invitation a new hash and expiry, or changes nothing |
| `ActionTokens.ActionTokenStore.RevokeInvitation` | apps/api/src/auth/tenant-invitations.service.ts:267-301 | consumes a pending managed invitation, or changes nothing |
| `ActionTokens.RecoveryIff` | apps/api/src/auth/auth-schema.service.ts:638-710 | a recovery goes through exactly when a stored recovery token of an active user has that hash, is unconsumed and not yet expired, and the request is anonymous on the reset path; it then sets that password and consumes that token, and otherwise changes nothing |
| `ActionTokens.VerificationIff` | apps/api/src/auth/auth-schema.service.ts:712-783 | the same of a verification, whose address must still be the user's and the server resolve the bare column name; the verification date is written once |
| `ActionTokens.InviteIff` | apps/api/src/auth/auth-schema.service.ts:785-940 | the same of an invitation with a tenant and a known role; the account with the address, or a new one, is active with the password and has the role |
| `ActionTokens.CreateActionIff` | apps/api/src/auth/auth-schema.service.ts:411-591 | who may ask for a token, and what asking does: exactly the user's pending tokens of that purpose are consumed, one token and one mail are added |
| `ActionTokens.CreateInvitationIff` | apps/api/src/auth/tenant-invitations.service.ts:438-528 | when an invitation is made, and what that does: exactly the pending invitations of that tenant and address are consumed, one token and one mail are added |
| `ActionTokens.ResendIff` | apps/api/src/auth/tenant-invitations.service.ts:184-265 | exactly which invitation can be resent, and what of it changes |
| `ActionTokens.RevokeIff` | apps/api/src/auth/tenant-invitations.service.ts:267-301 | exactly which invitation can be revoked, which consumes it and nothing else |
| `ActionTokens.RecoveryRoundTrip` | apps/api/src/auth/auth-schema.service.ts:411-710 | a recovery asked for and used before it expires sets the password and spends its token; one used at or after its expiry changes nothing |
| `ActionTokens.HonouredInTime` | apps/api/src/auth/auth-schema.service.ts:638-940 | over every run each honoured token was consumed at the instant it was honoured, strictly before the expiry on its row |
| `ActionTokens.OnePendingToken` | apps/api/src/auth/auth-schema.service.ts:1119-1129 | in every run at most one recovery and one verification token is unconsumed for a user, and one invitation for a tenant and address |
| `ActionTokens.ConsumedRowsStand` | apps/api/src/auth/auth-schema.service.ts:638-940 | consumed_at is written once: while no account is deleted, a consumed row never changes again |
| `ActionTokens.RetiredHashIsNeverHonoured` | apps/api/src/auth/auth-schema.service.ts:638-940 | a hash no pending token carries any more is never honoured again, whatever runs |
| `ActionTokens.ReplacingRetiresHash` | apps/api/src/auth/tenant-invitations.service.ts:184-301 | consuming, superseding, revoking and resending each retire the hash the row had |
| `ActionTokens.HonouredOnce` | apps/api/src/auth/auth-schema.service.ts:638-940 | over every run each hash and each token is honoured at most once |
| `ActionTokens.PasswordChangesMatchTokens` | apps/api/src/auth/auth-schema.service.ts:638-940 | every password change was made by one consumed recovery or invitation token of that user, and no token made two |
| `ActionTokens.StepChangesPasswordsOnRecord` | apps/api/src/auth/auth-schema.service.ts:638-940 | no stored password changes in any step but by consuming a pending token |
| `ActionTokens.RunKeepsInv` | apps/api/src/auth/auth-schema.service.ts:411-940 | the rows and the record of honoured tokens stay consistent in every run |
| `ActionTokens.OnlyRecoveriesByDefault` | apps/api/src/auth/auth-schema.service.ts:712-940 | at the server's default, where the bare column names raise, no run verifies an address, admits a user or honours anything but a recovery token |
| `RequestTransactions.DatabaseService.Query` | apps/api/src/database/database.service.ts:101-120 | joins the context's client or opens a session of its own, with the outcome and statements the program semantics gives |
| `RequestTransactions.DatabaseService.WithRequestTransaction` | apps/api/src/database/database.service.ts:141-165 | joins the open transaction or opens one, with the outcome and statements the program semantics gives |
| `RequestTransactions.DatabaseService.ExecuteInScopedRequestSession` | apps/api/src/database/database.service.ts:211-233 | acquire, BEGIN, callback, COMMIT or ROLLBACK, context cleared and client released, on every fault |
| `RequestTransactions.DatabaseService.Execute` | apps/api/src/database/database.service.ts:101-186 | a whole request of nested calls, throws and catches does what the program semantics says |
| `RequestTransactions.RequestRunsInSessions` | apps/api/src/database/database.service.ts:101-233 | for every program the statements sent form whole sessions one after another, each on a client of its own with one BEGIN, one COMMIT or ROLLBACK and one release, and each shows all its writes or none |
| `RequestTransactions.RequestGoesAsTold` | apps/api/src/database/database.service.ts:101-233 | whether every request returns, how many sessions it opens and which writes become visible, told from the program and its faults before it runs |
| `RequestTransactions.QueryOfItsOwn` | apps/api/src/database/database.service.ts:101-120 | a query outside a transaction returns exactly when none of connect, BEGIN, COMMIT and itself fails, shows its write exactly then, takes one client unless there is none, and sends BEGIN, itself, COMMIT or ROLLBACK and release |
| `RequestTransactions.RunInside` | apps/api/src/database/database.service.ts:101-186 | inside a session every nested call only adds statements on that session's client |
| `RequestTransactions.ClientRestored` | apps/api/src/database/database.service.ts:141-233 | db_client returns to its prior value after every nested program, throwing or not |
| `RequestTransactions.OutermostTransaction` | apps/api/src/database/database.service.ts:141-233 | the outermost transaction is one session; it shows nothing if it throws; if it returns, it loses all its writes exactly when it swallows a failing statement, told from the program before it runs, and else shows them all |
| `RequestTransactions.TransactionGoesAsTold` | apps/api/src/database/database.service.ts:141-233 | whether an outermost transaction returns, and which writes it shows, told from the program and the faults of its BEGIN and COMMIT before it runs |
| `RequestTransactions.RunGoesAsTold` | apps/api/src/database/database.service.ts:101-186 | inside a session every program returns or throws, aborts the transaction or not, and writes as told before it runs |
| `RequestTransactions.CaughtFailureLosesWrites` | apps/api/src/database/database.service.ts:141-233 | the shortest such program: write, catch a failing query, return normally with the write lost |
| `Admissions.AdmissionsService.RegisterApprovedApplication` | apps/api/src/modules/admissions/admissions.service.ts:281-418 | admits, refuses or returns the earlier student as the specification says, with every table as before on a refusal, and keeps the invariant |
| `Admissions.AdmissionsService.AdvanceStudentAcademicLifecycle` | apps/api/src/modules/admissions/admissions.service.ts:437-484 | promotes, graduates, archives or refuses as the specification says, and keeps the invariant |
| `Admissions.AdmissionsService.PromoteStudent` | apps/api/src/modules/admissions/admissions.service.ts:758-840 | checks target, capacity and year in that order, then completes the old enrolment and upserts the new one |
| `Admissions.RegistrationAsTold` | apps/api/src/modules/admissions/admissions.service.ts:281-418 | which answer a registration gives, exactly when, in terms of status, places taken, limit, number and names; and every table after it, the new row field by field |
| `Admissions.AdvanceGoesOnIff` | apps/api/src/modules/admissions/admissions.service.ts:437-445 | an advance is refused outright exactly when its action is not one of three or the student has no active enrolment |
| `Admissions.PromotionAsTold` | apps/api/src/modules/admissions/admissions.service.ts:758-840 | which answer a promotion gives, exactly when, and what it writes: the old enrolment completed, the new one in the target's year in place of that year's row or at the end |
| `Admissions.DepartureAsTold` | apps/api/src/modules/admissions/admissions.service.ts:450-460 | graduation completes the enrolment and graduates the student, archiving withdraws it and makes the student inactive, and nothing else changes |
| `Admissions.CreationAsTold` | apps/api/src/modules/students/students.service.ts:36-89 | which answer the creation of a student gives, exactly when, and what it stores |
| `Admissions.EditAsTold` | apps/api/src/modules/students/students.service.ts:109-157 | which answer an edit of a student gives, exactly when, and which fields it overwrites |
| `Admissions.SubmissionIsPending` | apps/api/src/modules/admissions/admissions.service.ts:181-206 | a submitted application is pending and names no student |
| `Admissions.RunKeepsInv` | apps/api/src/modules/admissions/admissions.service.ts:715-730 | in every run of registrations, promotions, graduations, archivings, edits of applications, and creations and edits of students, no section exceeds its capacity and a student has at most one active enrolment and one row a year |
| `Admissions.StepEstrangesIff` | apps/api/src/modules/admissions/admissions.service.ts:437-484 | a step breaks the rule that a student is active exactly while enrolled exactly when the students service creates an active student or sets a status against the enrolment; registrations, promotions and departures keep it |
| `Admissions.AdmissionsService.CreateStudent` | apps/api/src/modules/students/students.service.ts:36-89 | stores the student unless the plan's limit of active students is reached or the admission number is blank or taken |
| `Admissions.AdmissionsService.UpdateStudent` | apps/api/src/modules/students/students.service.ts:109-157 | overwrites the fields given, unless the student is unknown, an activation meets the limit, or the number is blank or another student's |
| `Admissions.AdmissionsService.UpdateApplication` | apps/api/src/modules/admissions/admissions.service.ts:208-225 | overwrites a known application's status, whatever it was |
| `Admissions.RunConserves` | apps/api/src/modules/admissions/admissions.service.ts:281-484 | over every run the active enrolments grow by registrations less graduations and archivings |
| `Admissions.RegistrationAdmitsOne` | apps/api/src/modules/admissions/admissions.service.ts:281-418 | a registration adds one active enrolment, to the section found and nowhere else, for one new student, and leaves every other student, row and application alone |
| `Admissions.PromotionMovesOne` | apps/api/src/modules/admissions/admissions.service.ts:758-840 | a promotion takes one out of the old section and puts one into the target; all other counts stay |
| `Admissions.PromotionKeepsHistoryIff` | apps/api/src/modules/admissions/repositories/admissions.repository.ts:782-837 | the old enrolment stays on record as completed exactly when a section was found or the current year is another one; otherwise the upsert overwrites it |
| `Admissions.DepartureIsFinal` | apps/api/src/modules/admissions/admissions.service.ts:437-484 | a student who graduated or was archived is never enrolled again, and is active again exactly when the last accepted edit of the student's status since then says active |
| `Admissions.NeverEnrolledAgain` | apps/api/src/modules/admissions/admissions.service.ts:742-756 | a student without an active enrolment never has one again in any run, whatever is edited |
| `Admissions.RegistrationIsFinal` | apps/api/src/modules/admissions/admissions.service.ts:293-312 | while its status is not edited a registered application keeps its student, and registering it again returns that student and changes nothing |
| `Admissions.AdmitsAgainIff` | apps/api/src/modules/admissions/admissions.service.ts:208-225 | over every run from any status but approved, an application comes to name a student, or another one, exactly when a registration of it that passes the checks on capacity, limit, number and names follows an edit of its status to approved with no later edit to anything else; the student named before stays |
| `Admissions.EditedApplicationAdmitsTwice` | apps/api/src/modules/admissions/admissions.service.ts:208-225 | the shortest such run, after which both students are active |
| `Admissions.FindSectionIsNewest` | apps/api/src/modules/admissions/repositories/admissions.repository.ts:737-780 | a fitting active section is found whenever there is one, and no fitting one is of a later year |
| `Admissions.FindSectionNames` | apps/api/src/modules/admissions/repositories/admissions.repository.ts:737-780 | the section found is exactly the active one of that class and stream, letter case aside, that no other such section follows by year, then by creation |
| `Admissions.YearBeforeIff` | apps/api/src/modules/admissions/repositories/admissions.repository.ts:757-757 | years are ordered by the first character in which they differ, a proper prefix coming first |
| `Admissions.ActiveInCounts` | apps/api/src/modules/admissions/repositories/admissions.repository.ts:768-774 | the places taken are the rows of the section that are active |
| `Text.TrimSplits` | apps/api/src/modules/admissions/admissions.service.ts:318-319 | trimming leaves exactly what lies between the white space at both ends |
| `Text.IsSpaceIff` | apps/api/src/modules/admissions/admissions.service.ts:318-319 | which characters are white space, by code point |
| `Text.LowerIff` | apps/api/src/modules/admissions/repositories/admissions.repository.ts:753-756 | lower() identifies two texts exactly when they differ in the case of the letters A to Z only |
| `ObjectKeys.EncodePathSegmentIsPercentEncoding` | apps/api/src/common/uploads/s3-object-storage.service.ts:426-430 | encodeURIComponent with the extra replacements is percent-encoding of every UTF-8 byte that is not an unreserved character |
| `ObjectKeys.EncodeByteAs` | apps/api/src/common/uploads/s3-object-storage.service.ts:426-430 | a byte stands for itself exactly if it is a letter, digit, hyphen, dot, underscore or tilde, and else in upper-case hexadecimal |
| `ObjectKeys.PercentDecodeUndoes` | apps/api/src/common/uploads/s3-object-storage.service.ts:426-430 | percent-decoding undoes it on every byte string |
| `ObjectKeys.DecodePathSegmentUndoes` | apps/api/src/common/uploads/s3-object-storage.service.ts:426-430 | decoding a segment gives back the segment, for every string of Unicode scalar values |
| `ObjectKeys.SegmentsKept` | apps/api/src/common/uploads/s3-object-storage.service.ts:422-424 | the encoded key has the segments of the key, each encoded, in place |
| `ObjectKeys.DecodeObjectKeyUndoes` | apps/api/src/common/uploads/s3-object-storage.service.ts:422-424 | decoding an encoded key gives back the key, so no two keys share an encoding |
| `ObjectKeys.DotSegmentsStay` | apps/api/src/common/uploads/s3-object-storage.service.ts:422-430 | an encoded segment is empty, one dot or two dots exactly when the segment is |
| `ObjectKeys.AcceptedPathsAreNormal` | apps/api/src/common/uploads/s3-object-storage.service.ts:83-83 | removing dot segments from the URL path of an accepted storage path changes nothing |
| `ObjectKeys.DotSegmentsGo` | apps/api/src/common/uploads/s3-object-storage.service.ts:83-83 | where a path is normalised, a segment of one dot goes and one of two dots takes the segment before it along |
| `ObjectKeys.LeadingDotsGo` | apps/api/src/common/uploads/s3-object-storage.service.ts:83-83 | and dot segments at the start of a relative path go |
| `ObjectKeys.AcceptedIff` | apps/api/src/common/uploads/s3-object-storage.service.ts:266-281 | a storage path is accepted exactly when, trimmed, it lies under the tenant's own directory, has no backslash, and no part between slashes is empty, one dot or two dots |
| `ObjectKeys.SplitGivesSegments` | apps/api/src/common/uploads/s3-object-storage.service.ts:422-424 | split gives exactly the parts between slashes and ends |
| `ObjectKeys.SlashFreeIdsDoNotShare` | apps/api/src/common/uploads/s3-object-storage.service.ts:266-281 | a path accepted for one tenant id without slashes is accepted for no other such id |
| `ObjectKeys.SharedPathIff` | apps/api/src/common/uploads/s3-object-storage.service.ts:266-281 | two usable tenant ids share an accepted path exactly when they are equal or one followed by a slash begins the other |
| `ObjectKeys.ObjectPathsSeparateTenants` | apps/api/src/common/uploads/s3-object-storage.service.ts:76-83 | two accepted uploads with the same URL path have the same storage path and, with slash-free ids, the same tenant |

## Left out

- HTTP, NestJS wiring, DTO validation, audit, metrics, logging, mail rendering and delivery: plumbing without a property of its own.
- Cryptography: JWT signatures, password hashes and SHA-256 are inputs or opaque values; what is proved of the checksum is about its input text.
- The multi-factor challenge at login is a yes or no; trusted devices are not modelled.
- Sessions are kept without `ip_address` and `user_agent`, which no check reads; `updated_at` is compared as an instant, as ISO strings of one format sort.
- Concurrent logins during `invalidateUserSessions` are interleaved in `RefreshRotation`, but the index theorems are for methods one at a time.
- JSON numbers are their printed text; Date, NaN and undefined filter values lie outside the JSON values the injectivity theorem is about, and an undefined array item does collide with no item (`CanonicalJson.UndefinedItemIsLost`).
- RFC 4180 limits unquoted text to printable ASCII; the parser accepts any other character there, as CSV readers do.
- `runSchemaBootstrap`, connection retries and the branches of the database service without a request context are not modelled; of a ROLLBACK that fails only the error differs, and is not modelled.
- ActionTokens.ActionTokenStore.ConsumeInvite: does not update the guardian links of the accepted address, a table no other modelled step reads.
- ActionTokens.ConsumedRowsStand: does not cover the deletion of a user, which deletes the user's token rows.
- `lower()` is that of ASCII.
- Magic-link tokens, and of platform onboarding everything but the invitation it creates.
- In admissions: allocations, subjects, timetable, fees, documents, lifecycle events and published events, which follow the enrolment and decide nothing; the other columns of students and applications; sections are fixed for a run; academic years are ordered character by character.
- `putObject`, `getObject` and `deleteObject`: request signing and I/O; strings with lone surrogates, on which `encodeURIComponent` throws.
- Row-level security, triggers and `set_config` bookkeeping.
