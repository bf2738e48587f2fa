# Identity server: verified model

This project models the state machines and the decision engines of an OAuth 2.0 / OpenID Connect identity server, and
proves what every run of them guarantees. Database tables are maps or sequences, Redis is a map with expiry times, and
the clock is an integer number of milliseconds that never runs backwards. `dafny verify dfyconfig.toml` checks all of it.

| area | modules |
|---|---|
| Sessions and refresh tokens: grants, rotation, replay, session limits | `SessionTokens`, `SessionTokenSafety`, `SessionLimit`, `TokenLaws`, `SessionStore` |
| Refresh requests and session grants interleaved call by call | `RefreshRace`, `RefreshChecks`, `LimitRace` |
| Authorization codes, one step per database call of each concurrent request | `ClientAuth`, `CodeExchange`, `CodeExchangeSafety`, `CodeExchangeChecks` |
| Device codes, both serialised and interleaved | `DeviceGrant`, `DeviceGrantChecks` |
| Role claims: the walk over the group graph, deduplication, partition | `RoleResolution` |
| Configurable login flows | `FlowEngine`, `FlowExecutor`, `FlowSafety`, `FlowRoutes`, `FlowBypass`, `FlowMoves`, `FlowWalks`, `FlowAnswers` |
| Brute-force lockout over a table that is swept daily | `Lockout`, `LockoutLaws`, `LockoutService` |
| Attribute-based policies, CIDR ranges and the policy cache | `PolicyEngine`, `Cidr`, `ConditionLaws`, `PolicyCache`, `PolicyTable`, `CacheRace`, `AuthorizationService` |
| Consent, its history, re-consent and pending requests | `Consent`, `ConsentLaws`, `ConsentRequests`, `ConsentService` |
| Revocation of admin tokens | `AdminTokens`, `AdminAuthService` |
| Continuous verification: risk signals and trust scores | `ContinuousSignals`, `TrustScore`, `TrustLaws`, `TrustService` |
| The form codec of the load scripts | `PercentEncoding`, `FormCodec`, `FormLaws` |
| Shared: options, collections, strings, stable sorting, JSON values | `Wrappers`, `Collections`, `Text`, `Ordering`, `Json` |

Each imperative component has two parts: a specification on values (`Step`, `Run` and the functions they use), about
which the run theorems are lemmas, and a class whose methods update fields as the code does and whose postconditions
equate the new state with that specification. The modules named `Laws`, `Checks` and `Answers` say what the operations
mean without those functions: which rows they write, when they succeed, how long what they hand out is good for.

## Where the code and its documentation part

The model follows the code. These points are lemmas, each with its exact condition or a concrete input.

- The lockout window is `failureResetTime`, but a sweep every five minutes deletes failures older than a day. Whether a
  failure locks is decided like on the full log in every run if and only if the window is at most a day or one failure
  locks (`Lockout.WindowMustFitInADay`). Whether the lock is permanent is decided by all retained failures, so the whole
  decision is that of the full log if and only if, besides, the first lock is permanent or none ever is
  (`Lockout.PermanenceNeedsOneCycle`); otherwise earlier lockout cycles are forgotten (`Lockout.LostCycles`).
- An accepted policy version that is the empty string counts as never accepted, so a later version asks for no
  re-consent (`Consent.EmptyVersionHidesChange`, `Consent.EmptyVersionExample`). This is about the service's interface: its
  one caller, src/login/login.controller.ts:953, passes no version, and nothing else calls `requiresReConsent`.
- A lost history write breaks the replay of the consent history exactly when it recorded a change
  (`Consent.LostGrantKeepsSyncedIff`, `Consent.LostRevocationKeepsSyncedIff`).
- `notIn` is the opposite of `in` only on list values; on anything else both fail
  (`PolicyEngine.NotInIsComplementOnLists`).
- `slow_down` of section 3.5 of RFC 8628 is only ever sent for approved codes; polls of a pending code leave no trace
  (`DeviceGrant.PendingPollsLeaveNoTrace`).
- A flow in which no step applies starts without a current step and without being complete, and stays so
  (`FlowSafety.StuckStart`).
- Flow validation accepts a fallback to a later step, and such a flow can complete without a required step
  (`FlowSafety.ForwardFallbackSkipsRequiredStep`). For every validated flow completion is safe if and only if no chain
  of moves, each possible for a single request, gets from the start to the end without the required step
  (`FlowMoves.SafeExactlyWhenInescapable`). What a flow's author can read off the steps: whatever conditions the
  optional steps carry, if all steps can be answered, and those that fall back past a required step can be come to, it
  is safe if and only if there are no such steps (`FlowWalks.SafeExactlyWithoutBypassing`); and where the conditions can
  be chosen independently, exactly when no route in the graph of steps and fallbacks avoids a required one
  (`FlowRoutes.SafeExactlyWhenUnavoidable`, `FlowBypass.SafeExactlyWithoutBypass`).
- A refresh token is read, revoked and replaced in separate database calls. In every run a session's live tokens, those
  about to be issued and those lost add up to one more than the rotations that came late
  (`RefreshRace.TokensAreConserved`), so a session has at most one live token if and only if losses and pending issues
  make up for the late rotations (`RefreshRace.OneLiveTokenIff`); without losses, if and only if no rotation came late
  (`RefreshRace.OneLiveTokenUnlessLate`, and `RefreshRace.TwoReadersTwoTokens` for the input). A replay does not always
  end a session for good: without losses it is revived if and only if a request had rotated before the replay or a late
  rotation follows (`RefreshRace.ReplayRevivedIff`, and `RefreshRace.ReplayUndone` for the input).
- The session limit is counted, enforced and used in separate calls. With at most w grants between their query and
  their insert a user has at most max + w - 1 active sessions (`LimitRace.LimitExceededByOverlapOnly`), and for every
  limit and every w some run has that many (`LimitRace.LimitIsExceededByOverlap`).
- A reader that queried the policies before a write may fill the cache after the writer's invalidation: a deleted policy
  is then served for up to a minute after the fill (`CacheRace.DeletedPolicyIsServed`), and never longer
  (`CacheRace.ServedIsAtMostALifetimeOld`).
- The refresh token that impersonation hands out is bound to no client, and refreshing refuses such tokens: no run ever
  redeems one (`TokenLaws.ImpersonationTokenIsNeverRedeemed`).
- A login flow's fallback is taken when a password step throws, but never when the password is wrong
  (`FlowAnswers.UnansweredStays`).
- Resetting the failures of a user who was locked for good leaves the account disabled; only an unlock enables it
  (`LockoutLaws.ResetLeavesDisabled`, `LockoutLaws.ClearedUserHasAllAttempts`).
- `offline_access` is not among the supported scopes, so no token is ever issued as an offline token
  (`SessionTokenSafety.NoOfflineTokens`).
- The decay sweep does not record that it ran: a session idle for a day loses half of its trust every hour, not five per
  cent (`TrustScore.SweepsHalveTrust`). An assessment at LOW risk raises trust only while the decay costs at most a
  point and a half (`TrustScore.LowRiskRaisesTrustIff`).
- No risk signal or combination of signals reaches HIGH; only policies that contribute points do
  (`ContinuousSignals.SignalsAloneNeverEscalate`).
- PKCE always compares the S256 transform; the stored challenge method of section 4.3 of RFC 7636 is not read. The
  authorization endpoint refuses every method but S256 (src/oauth/oauth.service.ts:94-98), so the check is the one of
  the RFC whenever a method was named. An absent method means `plain` in the RFC: then the exchange refuses what the RFC
  accepts exactly when the challenge itself is sent and is not its own transform, and accepts what the RFC refuses
  exactly when another text is sent whose transform it is (`CodeExchangeSafety.DiffersFromRfcIff`, and
  `CodeExchangeSafety.FollowsRfcIff` for all verifiers of a row at once); so a client that relies on the default is
  refused (`CodeExchangeSafety.PlainVerifierIsRefused`).

## Model

| member | source | states |
|---|---|---|
| `SessionTokens.EffectiveScopes` | src/auth/auth.service.ts:1225-1228 | the granted scopes are exactly the recognised ones of the request, or `openid` alone when there is none |
| `SessionTokens.SupportedInOrder` | src/scopes/scopes.service.ts:13-17 | the filter keeps the order of the request |
| `SessionTokenSafety.StepKeepsInv` | src/auth/auth.service.ts:567-682 | every grant, refresh, revocation, logout, impersonation and clean-up keeps the token invariant |
| `SessionTokenSafety.SessionHasOneLiveTokenAndOneBinding` | src/auth/auth.service.ts:584-681 | in every run a session has at most one un-revoked refresh token, and all refresh tokens ever issued under it carry one client and one acr |
| `SessionTokenSafety.RefreshReplacesTheLiveToken` | src/auth/auth.service.ts:595-681 | a refresh succeeds exactly for an unexpired live token of the calling client; afterwards the new token is the only live one and repeats client and acr |
| `SessionTokenSafety.ReplayIsAbsorbing` | src/auth/auth.service.ts:595-618 | a rotated token presented again kills its session's tokens, and no continuation of the run revives the session |
| `SessionTokenSafety.RedeemedAtMostOnce` | src/auth/auth.service.ts:643-681 | a refresh token buys at most one successor in any run |
| `SessionTokenSafety.ImpersonationKeepsInv` | src/impersonation/impersonation.service.ts:87-145 | impersonation opens a session with one live token, bound to no client, and keeps the invariant |
| `SessionTokenSafety.RevokeSessionWeakens` | src/sessions/sessions.service.ts:110-140 | revoking a session only revokes and removes rows |
| `SessionTokenSafety.CleanupWeakens` | src/sessions/sessions-cleanup.service.ts:12-35 | the clean-up of expired rows only removes rows |
| `SessionTokenSafety.NoOfflineTokens` | src/scopes/scopes.constants.ts:19 | no run of the endpoint issues an offline token |
| `TokenLaws.TokenLivesExactly` | src/auth/auth.service.ts:1342-1355 | after a grant or refresh, through any continuation that leaves the session and its tokens alone, the token handed out can be refreshed exactly by its client and up to `refreshTokenLifespan` seconds after its issue |
| `TokenLaws.GrantWritesItsRows` | src/auth/auth.service.ts:273-314 | field by field the session and token rows of a grant: user, level, creation, expiry; session, client, recognised scope, expiry; the sessions over the limit go, nothing else changes |
| `TokenLaws.RefreshWritesItsRows` | src/auth/auth.service.ts:643-681 | field by field the row a refresh adds, for the requested scope or else the old one, and the one it revokes; nothing else changes |
| `TokenLaws.RefreshAnswers` | src/auth/auth.service.ts:595-645 | every answer of a refresh and when it is given |
| `TokenLaws.ServiceGrantWritesItsRows` | src/auth/auth.service.ts:484-529 | the rows of a service-account grant, or none for a session that the trim took |
| `TokenLaws.GrantKeepsTheNewest` | src/auth/auth.service.ts:1519-1554 | counted on the rows: at most the limit unexpired sessions remain, exactly the surplus goes, all of them the user's, unexpired and oldest |
| `TokenLaws.ImpersonationWritesItsRows` | src/impersonation/impersonation.service.ts:87-145 | both rows run for the impersonation's duration, the token bound to no client |
| `TokenLaws.ImpersonationTokenIsNeverRedeemed` | src/auth/auth.service.ts:620-636 | no continuation redeems that token |
| `TokenLaws.EndingDropsTheSession` | src/sessions/sessions.service.ts:110-140 | revoking or ending a session removes it with its tokens and nothing else |
| `TokenLaws.EndedSessionStaysDead` | src/sessions/sessions.service.ts:110-140 | no token of an ended session is redeemed in any continuation |
| `TokenLaws.CleanupKeepsTheUnexpired` | src/sessions/sessions-cleanup.service.ts:12-35 | exactly the unexpired rows of unexpired sessions remain, unchanged |
| `TokenLaws.SupportedKeepsCounts` | src/scopes/scopes.service.ts:13-17 | recognised scopes are kept as often as they were asked for, others not at all |
| `RefreshRace.TokensAreConserved` | src/auth/auth.service.ts:586-681 | with refreshes interleaved call by call: in every run the live and pending tokens of a session, and the losses on the way, are exactly those at the start, one for its opening and one for every late rotation |
| `RefreshRace.LateRotationsBoundLiveTokens` | src/auth/auth.service.ts:586-681 | from the empty tables, live and pending tokens of a session never exceed one more than its late rotations |
| `RefreshRace.OneLiveTokenIff` | src/auth/auth.service.ts:586-681 | an opened session has at most one live token exactly when losses and pending issues make up for the late rotations |
| `RefreshRace.OneLiveTokenUnlessLate` | src/auth/auth.service.ts:586-681 | with nothing lost and nobody about to issue, an opened session has exactly one live token more than late rotations, so at most one exactly when none came late |
| `RefreshRace.ReplayLeavesOnlyPending` | src/auth/auth.service.ts:595-618 | a replay leaves nothing live, and after any continuation what is live, pending or lost since is exactly the requests that had rotated before and the late rotations since |
| `RefreshRace.ReplayRevivedIff` | src/auth/auth.service.ts:595-618 | a continuation without losses revives the session exactly when a request had rotated before the replay or a late rotation follows |
| `RefreshRace.ReplayUndone` | src/auth/auth.service.ts:595-681 | a concrete run in which a request issues a live token after another request's replay revoked the session |
| `RefreshRace.TwoReadersTwoTokens` | src/auth/auth.service.ts:586-647 | a concrete run with one late rotation and two live tokens |
| `RefreshChecks.IssuedToTheHolder` | src/auth/auth.service.ts:586-681 | in every interleaving a token is issued only to a request that read a live, unexpired row bound to its client, and belongs to that row's session and client |
| `RefreshChecks.ReadsExactly` | src/auth/auth.service.ts:586-645 | the first call rotates, replays or refuses, each exactly when; no table changes |
| `LimitRace.LimitExceededByOverlapOnly` | src/auth/auth.service.ts:1519-1554 | with at most w grants between their query and their insert, in every run the active sessions exceed the limit by at most w - 1 |
| `LimitRace.LimitIsExceededByOverlap` | src/auth/auth.service.ts:273-285 | for every limit and w some run exceeds it by exactly w - 1 |
| `SessionLimit.EvictTouchesOnlyTheEvicted` | src/auth/auth.service.ts:1536-1553 | eviction revokes all and only the non-offline tokens of the evicted sessions, and the cascade removes the evicted sessions' tokens and no others |
| `SessionLimit.LimitEvictsTheOldest` | src/auth/auth.service.ts:1519-1554 | exactly max(0, n - max + 1) of the n active sessions go, none newer than a survivor, and nothing else changes |
| `SessionLimit.GrantRespectsLimit` | src/auth/auth.service.ts:273-285 | after a limited grant the user has at most `maxSessionsPerUser` active sessions, however many there were |
| `SessionLimit.ActiveSessionsNeverExceedLimit` | src/auth/auth.service.ts:1508-1554 | the limit holds throughout every run of limited grants |
| `SessionLimit.ServiceAccountKeepsTheNewestHundred` | src/auth/auth.service.ts:492-517 | a service-account grant leaves its user with at most a hundred sessions, the newest |
| `SessionStore.SessionStore.OrderByCreatedAt` | src/auth/auth.service.ts:1527-1535 | the query answer lists exactly the rows, oldest first |
| `SessionStore.SessionStore.EnforceSessionLimit` | src/auth/auth.service.ts:1519-1554 | the method's new tables are those of the specification for the order it read |
| `SessionStore.SessionStore.SessionGrant` | src/auth/auth.service.ts:273-314 | limit, session row and refresh token, as specified |
| `SessionStore.SessionStore.ServiceAccountGrant` | src/auth/auth.service.ts:484-529 | session row, trim to a hundred and refresh token, as specified |
| `SessionStore.SessionStore.RefreshGrant` | src/auth/auth.service.ts:586-681 | rotation, replay handling and every refusal, as specified |
| `SessionStore.SessionStore.IssueTokens` | src/auth/auth.service.ts:1343-1359 | the refresh row as specified, which `TokenLaws` describes field by field, or the foreign-key failure when the session is gone |
| `ClientAuth.ValidateClient` | src/auth/auth.service.ts:1117-1209 | a client is accepted exactly when it exists, is enabled, may use the grant and, if confidential, proved its secret |
| `ClientAuth.ClientAnswers` | src/auth/auth.service.ts:1117-1209 | every refusal in the order of the checks, with the aliases of the device and one-time-code grants |
| `CodeExchange.CheckClaim` | src/auth/auth.service.ts:741-787 | the checks after the claim pass exactly for the code's client, its redirect URI and a fitting PKCE verifier |
| `CodeExchangeSafety.CodeYieldsOneSession` | src/auth/auth.service.ts:708-828 | in every interleaving a code yields at most one session, opened by a request that passed all checks |
| `CodeExchangeChecks.SessionsPassedTheUserCheck` | src/auth/auth.service.ts:789-828 | in every interleaving a session's request claimed the code before it expired and was then told that the code's user exists and is not locked; its row is that user's, at the level of the code |
| `CodeExchangeChecks.AdmittedExactly` | src/auth/auth.service.ts:789-807 | the call after the claim: admitted exactly when the user exists and no lock reaches beyond the clock, with each refusal |
| `CodeExchangeChecks.ClaimAnswers` | src/auth/auth.service.ts:741-787 | every answer of the checks at the claim, in their order |
| `CodeExchangeChecks.OpensExactly` | src/auth/auth.service.ts:811-828 | the session row that is written, and nothing else |
| `CodeExchangeChecks.EvictsExactly` | src/auth/auth.service.ts:1527-1553 | what the limit query found is revoked and then deleted, nothing else |
| `CodeExchangeChecks.IssuesExactly` | src/auth/auth.service.ts:1350-1359 | one token for the request's own session, unless that is gone |
| `CodeExchangeChecks.CleanupKeepsUnexpiredCodes` | src/sessions/sessions-cleanup.service.ts:32-35 | exactly the expired codes are deleted, used or not |
| `CodeExchangeSafety.ClaimIsFinal` | src/auth/auth.service.ts:708-739 | a claimed code stays used, whatever becomes of the claimant, and opens a session for nobody else |
| `CodeExchangeSafety.FailedExchangeLeavesCodeUsed` | src/auth/auth.service.ts:717-787 | the update claims exactly the unused and unexpired code; a request failing a later check leaves it used; a request that finds no such code changes nothing |
| `CodeExchangeSafety.SessionsProveTheirKey` | src/auth/auth.service.ts:757-828 | in every interleaving the verifier's transform is the stored challenge, the check of section 4.6 of RFC 7636 whenever the code named its method |
| `CodeExchangeSafety.DiffersFromRfcIff` | src/auth/auth.service.ts:766-787 | verifier by verifier, exactly when the exchange refuses what the RFC accepts and when it accepts what the RFC refuses; both need an absent method |
| `CodeExchangeSafety.PlainVerifierIsRefused` | src/oauth/oauth.service.ts:94-101 | a concrete code without a method whose verifier the RFC accepts and the exchange refuses, unless it is its own transform |
| `DeviceGrant.DeviceCodes.PollAlone` | src/auth/auth.service.ts:880-982 | one poll: its answer and the row it leaves, as specified and as `DeviceGrantChecks` describes them, and no other row touched |
| `DeviceGrantChecks.GrantedExactly` | src/auth/auth.service.ts:886-1002 | a poll is granted exactly for an approved, unexpired code of the realm, on time, for an existing user without a second factor set up or required |
| `DeviceGrantChecks.RefusedExactly` | src/auth/auth.service.ts:886-979 | every refusal, exactly when, and the row it leaves |
| `DeviceGrant.IntervalCountsEarlyPolls` | src/auth/auth.service.ts:916-941 | k early polls of an approved code leave its interval at the initial one plus 5k |
| `DeviceGrant.SlowDownExactlyWhenEarly` | src/auth/auth.service.ts:916-935 | a poll is answered `slow_down` exactly when the code was polled before and the poll comes sooner than the current interval after that |
| `DeviceGrant.PendingPollsLeaveNoTrace` | src/auth/auth.service.ts:908-914 | any number of polls of a pending code are all answered pending and leave the row as it was |
| `DeviceGrant.GrantEndsTheCode` | src/auth/auth.service.ts:981-993 | after a granted poll the code is gone and later polls stay pending |
| `DeviceGrant.DeviceCodeYieldsOneSession` | src/auth/auth.service.ts:880-993 | under any interleaving of polls a device code yields at most one session, for a request that read it approved |
| `DeviceGrantChecks.SessionsNeedNoSecondFactor` | src/auth/auth.service.ts:886-1002 | in every interleaving a session's request read the code approved for the session's user, unexpired and on time, and was told that the user exists and has no second factor set up or required |
| `DeviceGrantChecks.ReadsExactly` | src/auth/auth.service.ts:886-935 | the first call of an interleaved poll |
| `DeviceGrantChecks.AsksExactly` | src/auth/auth.service.ts:950-979 | the three queries on the user, each remembered as answered |
| `DeviceGrantChecks.WritesExactly` | src/auth/auth.service.ts:920-983 | the writes on the code's row, failing when it is gone |
| `DeviceGrantChecks.OpensExactly` | src/auth/auth.service.ts:985-1002 | the session is the approving user's, and its token is issued once |
| `RoleResolution.GroupWalk.WalkGroup` | src/auth/auth.service.ts:1483-1502 | the recursion ends on cyclic parents, visits each group once and covers all ancestors |
| `RoleResolution.ResolveGroupRoles` | src/auth/auth.service.ts:1466-1509 | exactly the roles of the groups reachable from the memberships, each group once |
| `RoleResolution.Dedupe` | src/auth/auth.service.ts:1247-1253 | the filter with the id set computes the deduplicated list |
| `RoleResolution.DedupedKeepsFirstOfEachId` | src/auth/auth.service.ts:1247-1253 | no id twice, none lost, and the first role of each id is kept |
| `RoleResolution.FillResourceAccess` | src/auth/auth.service.ts:1259-1267 | the loop computes the specified lists |
| `RoleResolution.AccessIsFilled` | src/auth/auth.service.ts:1255-1267 | each client's list holds its role names in order, and realm names and lists together hold as many names as there are roles |
| `RoleResolution.EveryRoleLands` | src/auth/auth.service.ts:1255-1267 | a role is named among the realm roles or in its own client's list |
| `RoleResolution.RoleClaims` | src/auth/auth.service.ts:1237-1267 | the claims are those of the direct roles followed by the roles of some listing of the reachable groups, deduplicated |
| `RoleResolution.ClaimsNameEveryRoleOnce` | src/auth/auth.service.ts:1237-1267 | such claims name every id among direct and inherited roles once, in the right list, and nothing else |
| `FlowEngine.ValidateSteps` | src/auth-flow/auth-flow.service.ts:392-417 | accepts exactly the flows with a step, unique ids, unique orders and known fallbacks, and names the first of these that is missing |
| `FlowEngine.FirstStepIsLeast` | src/auth-flow/auth-flow.service.ts:292-300 | the first step is the applicable one of least order |
| `FlowEngine.NextStepIsLeast` | src/auth-flow/auth-flow.service.ts:302-312 | the next step is the applicable one of least order above the current step |
| `FlowEngine.FirstApplicableStep` | src/auth-flow/auth-flow.service.ts:457-469 | the loop finds the first applicable step of the list |
| `ConditionLaws.OneConditionStarts` | src/auth-flow/auth-flow.service.ts:317-366 | a flow of one optional step starts with it exactly when the value at the condition's path stands in the operator's relation to its value |
| `FlowExecutor.FlowSession.StartFlow` | src/auth-flow/flow-executor.service.ts:78-87 | the session after its start, as specified |
| `FlowExecutor.FlowSession.ProcessStep` | src/auth-flow/flow-executor.service.ts:92-171 | the session and the reply after one request, as specified and as `FlowAnswers` describes them |
| `FlowExecutor.FlowSession.AdvanceSession` | src/auth-flow/flow-executor.service.ts:293-317 | records the step and moves on or completes, as specified |
| `FlowSafety.CompletionMeansAllRequiredSucceeded` | src/auth-flow/flow-executor.service.ts:92-171 | in any validated flow without a bypass, a completed run has had every required step succeed |
| `FlowAnswers.CompletionShowsEveryCredential` | src/auth-flow/flow-executor.service.ts:92-291 | in a validated flow without a bypass, a completed run has answered every required step with what it asks for |
| `FlowAnswers.CompletionShowsACode` | src/auth-flow/flow-executor.service.ts:248-268 | for a required one-time-code step, some request sent a code that the service verified while the session knew its user |
| `FlowAnswers.TotpSucceedsExactly` | src/auth-flow/flow-executor.service.ts:248-268 | exactly when a user is known, a code was sent and the service verified it |
| `FlowAnswers.PasswordSucceedsExactly` | src/auth-flow/flow-executor.service.ts:214-246 | exactly when both fields were sent and the login was accepted; the session's user is then that one |
| `FlowAnswers.WebAuthnSucceedsExactly` | src/auth-flow/flow-executor.service.ts:270-291 | exactly when the context says verified and a user id was sent; the session's user is then that one |
| `FlowAnswers.OtherTypesSucceedExactly` | src/auth-flow/flow-executor.service.ts:193-208 | the pending types always, an unknown type never |
| `FlowAnswers.AnsweredCompletes` | src/auth-flow/flow-executor.service.ts:167-171 | a request that answers its step completes it, with the reply naming the next step or completion |
| `FlowAnswers.UnansweredStays` | src/auth-flow/flow-executor.service.ts:117-165 | any other request stays or takes the fallback, a rejected password never the fallback; the reply says which |
| `FlowAnswers.SkippedAdvances` | src/auth-flow/flow-executor.service.ts:102-111 | an optional step whose condition fails is passed over without success |
| `FlowRoutes.UnavoidableSucceeds` | src/auth-flow/flow-executor.service.ts:92-171 | in any validated flow, a completed run without a required step traces a route that avoids it |
| `FlowMoves.Reproduce` | src/auth-flow/flow-executor.service.ts:92-171 | what one request can do to some session at a step, some request can do to every session at that step that knows a user likewise |
| `FlowMoves.EscapableIff` | src/auth-flow/flow-executor.service.ts:92-171 | chains of such moves are the runs that complete without the step |
| `FlowMoves.SafeExactlyWhenInescapable` | src/auth-flow/flow-executor.service.ts:78-171 | for every validated flow, completion means every required step succeeded, in all runs, exactly when no chain of moves escapes one |
| `FlowWalks.BypassEscapes` | src/auth-flow/flow-executor.service.ts:120-134 | a step that can fail, can be come to and falls back past a required step lets a run complete without it |
| `FlowWalks.SafeExactlyWithoutBypassing` | src/auth-flow/flow-executor.service.ts:120-155 | whatever conditions the optional steps carry: if steps can be answered and bypassing ones come to, safe exactly when no step that can fail falls back past a required one |
| `FlowWalks.SafeExactlyWithoutBypassOrCodes` | src/auth-flow/auth-flow.service.ts:392-417 | without one-time codes and unknown types, and with unconditional bypassing steps, nothing further has to hold |
| `FlowWalks.AlwaysIsHoldable` | src/auth-flow/auth-flow.service.ts:457-469 | required and unconditional steps can be come to |
| `FlowWalks.PlainIsHoldable` | src/auth-flow/auth-flow.service.ts:317-366 | and optional steps conditioned on a plain field |
| `FlowWalks.UserIdIsHoldable` | src/auth-flow/auth-flow.service.ts:317-366 | and those conditioned on the id of the user, the field the executor writes |
| `FlowSafety.BackwardFallbacksBypassNothing` | src/auth-flow/auth-flow.service.ts:392-417 | fallbacks that never point to a later order meet that condition |
| `FlowSafety.ForwardFallbackSkipsRequiredStep` | src/auth-flow/flow-executor.service.ts:124-134 | a concrete validated flow that completes without two of its required steps |
| `FlowSafety.CompletionIsFinal` | src/auth-flow/flow-executor.service.ts:98-100 | no sequence of requests, to whatever steps, changes a session that completed |
| `FlowSafety.StuckStart` | src/auth-flow/flow-executor.service.ts:78-87 | no first step exactly when nothing applies, and then never complete |
| `FlowSafety.SuccessMovesForward` | src/auth-flow/flow-executor.service.ts:293-317 | each success moves to a strictly larger order or completes |
| `FlowSafety.NoStepCompletesTwice` | src/auth-flow/flow-executor.service.ts:293-317 | while no fallback is taken at most as many requests succeed as there are steps |
| `FlowSafety.TotpNeedsAUser` | src/auth-flow/flow-executor.service.ts:248-268 | a one-time code only ever succeeds for a user an earlier step identified |
| `Lockout.LocksExactlyOnFullWindow` | src/brute-force/brute-force.service.ts:36-98 | with a window of at most a day, a failure locks exactly when the full log has enough failures in the window, and permanently exactly when the retained failures also reach the configured cycles |
| `Lockout.PermanenceNeedsOneCycle` | src/brute-force/brute-force.service.ts:63-92 | the pruned table gives the full log's answer, none, temporary or permanent, in all runs if and only if the window fits in a day or one failure locks, and `permanentLockoutAfter` is at most 1 |
| `Lockout.LostCycles` | src/brute-force/brute-force.service.ts:65-85 | otherwise a run whose table answers with a temporary lock and whose log with a permanent one |
| `Lockout.WindowMustFitInADay` | src/brute-force/brute-force.service.ts:330-335 | the pruned table locks like the full log in all runs if and only if the window is at most a day or one failure locks |
| `Lockout.LockLastsExactly` | src/brute-force/brute-force.service.ts:22-34 | a temporary lock holds for exactly its duration and a permanent one until the end of 2099, whatever other users do and however often the table is swept |
| `LockoutLaws.ClearedUserHasAllAttempts` | src/brute-force/brute-force.service.ts:290-313 | after an unlock the user is enabled and unlocked, and after a reset unlocked, through every continuation with fewer new failures of that user than lock |
| `LockoutLaws.ClearedExactly` | src/brute-force/brute-force.service.ts:100-108 | the user row after it, the user's failures in the realm gone, everybody else's kept |
| `LockoutLaws.ForeignUnlockIsRefused` | src/brute-force/brute-force.service.ts:290-301 | an unlock by another realm changes nothing |
| `LockoutLaws.ResetLeavesDisabled` | src/brute-force/brute-force.service.ts:100-108 | without an unlock an account that was disabled stays so |
| `LockoutService.BruteForceService.RecordFailure` | src/brute-force/brute-force.service.ts:36-98 | insert, count, and lock, as specified |
| `LockoutService.BruteForceService.ResetFailures` | src/brute-force/brute-force.service.ts:100-108 | deletes the user's failures and clears the lock, as specified |
| `LockoutService.BruteForceService.UnlockUser` | src/brute-force/brute-force.service.ts:290-313 | clears the lock, enables the user and deletes the failures, as specified |
| `LockoutService.BruteForceService.CleanupOldFailures` | src/brute-force/brute-force.service.ts:330-335 | deletes exactly the failures older than a day |
| `Cidr.AddressValue` | src/authorization/policy-engine.ts:127-133 | signed shifts and ors of four octets give the address's unsigned 32-bit value |
| `Cidr.MaskValue` | src/authorization/policy-engine.ts:139 | the shifted mask has exactly the leading ones of the prefix |
| `Cidr.InCidrIsSameBlock` | src/authorization/policy-engine.ts:120-141 | a match is equality of the addresses divided by 2^(32 - bits), section 3.1 of RFC 4632 |
| `Cidr.InCidrExactly` | src/authorization/policy-engine.ts:120-141 | on every input a match means two addresses, a prefix length from 0 to 32, and one block |
| `Cidr.MatchIsAnEquivalence` | src/authorization/policy-engine.ts:120-141 | at each prefix length a match is reflexive, symmetric and transitive |
| `Cidr.LongerPrefixImpliesShorter` | src/authorization/policy-engine.ts:120-141 | a match at a longer prefix is one at every shorter prefix |
| `Cidr.EveryAddressIsInSlashZero` | src/authorization/policy-engine.ts:139 | prefix length 0 matches everything |
| `Cidr.SlashThirtyTwoIsEquality` | src/authorization/policy-engine.ts:139-140 | prefix length 32 is equality of the octets |
| `PolicyEngine.EvaluateConditions` | src/authorization/policy-engine.ts:328-345 | an empty list passes, otherwise all or some condition must |
| `PolicyEngine.EvaluatePolicy` | src/authorization/policy-engine.ts:366-410 | the loop over the four categories gives the policy's verdict and all condition results |
| `PolicyEngine.EvaluatePolicies` | src/authorization/policy-engine.ts:424-468 | filter, sort, evaluate and deny-override, as specified and as `ConditionLaws` describes them |
| `PolicyEngine.DecisionMeaning` | src/authorization/policy-engine.ts:414-468 | DENY exactly when some enabled matching policy denies or none allows; the counts are those of the enabled policies |
| `ConditionLaws.DecisionExactly` | src/authorization/policy-engine.ts:151-468 | for every table, permitted exactly when the stored values meet some enabled policy that does not deny and none that does, with each operator written out |
| `ConditionLaws.OneConditionDecides` | src/authorization/policy-engine.ts:151-314 | a table of one policy with one condition permits exactly when the value at its path stands in the operator's relation to its value |
| `ConditionLaws.ReportExactly` | src/authorization/policy-engine.ts:366-440 | the report lists the enabled policies by falling priority, each with its verdict and the verdict of each condition |
| `ConditionLaws.PathOfField` | src/authorization/policy-engine.ts:102-113 | through objects a dotted field reads what is stored there, undefined as soon as a field is absent |
| `PolicyEngine.DecisionIgnoresOrderAndPriority` | src/authorization/policy-engine.ts:424-468 | permuting policies and changing priorities leaves the decision alone |
| `PolicyEngine.NamedPolicyIsFirstDecisive` | src/authorization/policy-engine.ts:441-461 | the named policy is the first decisive match by priority and then by input order |
| `Json.ResolveField` | src/authorization/policy-engine.ts:102-113 | the loop resolves a dotted path |
| `Json.ResolveInStages` | src/auth-flow/auth-flow.service.ts:437-451 | a path can be followed in two stages |
| `PolicyCache.CachedEqualsDirect` | src/authorization/authorization.service.ts:120-153 | with Redis available, evaluation through the cache equals direct evaluation of the current table in every run |
| `PolicyCache.ServedListIsAtMostAMinuteOld` | src/authorization/authorization.service.ts:192-210 | with Redis coming and going, a served list was current within the last minute |
| `PolicyTable.ServedExactly` | src/authorization/authorization.service.ts:192-204 | with Redis available, in every run a policy is served for a realm exactly when it is stored there, by falling priority |
| `PolicyTable.DeletedIsNeverServed` | src/authorization/authorization.service.ts:108-116 | with Redis available, a deleted policy is never served again |
| `PolicyTable.CreatedExactly` | src/authorization/authorization.service.ts:36-65 | refused exactly when the realm has the name, otherwise one row more |
| `PolicyTable.UpdatedExactly` | src/authorization/authorization.service.ts:84-106 | refused exactly when the realm lacks the id, otherwise that row replaced |
| `PolicyTable.DeletedExactly` | src/authorization/authorization.service.ts:108-116 | refused exactly when the realm lacks the id, otherwise that row gone |
| `PolicyTable.ForClientExactly` | src/authorization/authorization.service.ts:126-134 | the client filter keeps exactly the policies for every client or this one, in their order |
| `PolicyTable.FilledForAMinute` | src/cache/cache.service.ts:24-31 | a list that was read is in the cache for a minute and no longer |
| `CacheRace.ServedIsAtMostALifetimeOld` | src/authorization/authorization.service.ts:192-210 | with reads and writes interleaved call by call, a served list was the table's when its reader queried it and is served less than a minute after that reader cached it |
| `CacheRace.CachedIsCurrentIff` | src/authorization/authorization.service.ts:192-210 | with no invalidation outstanding, a cached list is current exactly when no write changed the table between its query and its fill |
| `CacheRace.DeletedPolicyIsServed` | src/authorization/authorization.service.ts:108-116 | a concrete run that serves a deleted policy just under a minute after its deletion was complete |
| `AuthorizationService.CacheService.GetList` | src/cache/cache.service.ts:126-150 | an unexpired entry, or nothing when Redis is away |
| `AuthorizationService.CacheService.SetList` | src/cache/cache.service.ts:24-31 | stores the list with its expiry, as specified |
| `AuthorizationService.CacheService.Invalidate` | src/cache/cache.service.ts:50-61 | deletes the entry if Redis is there, as specified |
| `AuthorizationService.AuthorizationService.CreatePolicy` | src/authorization/authorization.service.ts:36-65 | insert or conflict, then invalidation, as specified |
| `AuthorizationService.AuthorizationService.UpdatePolicy` | src/authorization/authorization.service.ts:84-106 | replace or not found, then invalidation, as specified |
| `AuthorizationService.AuthorizationService.DeletePolicy` | src/authorization/authorization.service.ts:108-116 | delete or not found, then invalidation, as specified |
| `AuthorizationService.AuthorizationService.Evaluate` | src/authorization/authorization.service.ts:120-153 | cached list, filtered by client, evaluated |
| `Consent.HistoryRebuildsConsents` | src/consent/consent.service.ts:161-263 | replaying the history gives the consent table in every run, a pair's entries follow (granted updated* revoked)*, and `hasConsent` says that every requested scope is among the replayed ones |
| `ConsentLaws.ConsentLastsExactly` | src/consent/consent.service.ts:202-263 | after a grant the user has consented to exactly its scopes, after a revocation to nothing, until the pair changes again |
| `ConsentLaws.HistoryEntriesExactly` | src/consent/consent.service.ts:161-197 | the entry each operation adds |
| `ConsentLaws.AcceptedVersionSettles` | src/consent/consent.service.ts:307-368 | a newly recorded version is outdated exactly when another one is active, unless it is empty |
| `ConsentLaws.ActivePolicyExactly` | src/consent/consent.service.ts:317-338 | the active policy is the active one published last |
| `ConsentLaws.KeysExactly` | src/consent/consent.service.ts:133-159 | the recorded keys are those of the realm's enabled categories that list one of the scopes or, listing none, are named like one |
| `Consent.LostGrantKeepsSyncedIff` | src/consent/consent.service.ts:161-197 | a lost history write of a grant is harmless exactly when the grant changed nothing |
| `Consent.LostRevocationKeepsSyncedIff` | src/consent/consent.service.ts:161-197 | a lost history write of a revocation is harmless exactly when there was no consent |
| `Consent.ResolveCategoryKeys` | src/consent/consent.service.ts:133-159 | exactly the keys of the realm's enabled categories that govern one of the scopes |
| `Consent.BuildLastAccepted` | src/consent/consent.service.ts:340-352 | the nested loops keep, for each key, the version of the first row tagged with it |
| `Consent.RequiresReConsent` | src/consent/consent.service.ts:307-368 | re-consent is due exactly when some enabled category's newest versioned entry accepted another version than the active one |
| `Consent.EmptyVersionHidesChange` | src/consent/consent.service.ts:354-364 | a changed version goes unnoticed exactly when the accepted one is the empty string |
| `Consent.EmptyVersionExample` | src/consent/consent.service.ts:358-364 | a concrete history in which that happens |
| `ConsentRequests.HandedOutAtMostOnce` | src/consent/consent.service.ts:75-112 | under any interleaving of callers a request is handed out at most once, with the data stored, to a caller that read it unexpired |
| `ConsentRequests.AloneIsTakeRequest` | src/consent/consent.service.ts:94-112 | a caller whose two calls are not interrupted gets what the service's method returns |
| `ConsentLaws.TakenExactly` | src/consent/consent.service.ts:94-112 | handed out exactly when it is an unexpired consent request; then gone, and nothing else |
| `ConsentService.ConsentService.GrantConsent` | src/consent/consent.service.ts:202-236 | upsert and history entry, as specified |
| `ConsentService.ConsentService.RevokeConsent` | src/consent/consent.service.ts:238-263 | deletion and history entry, as specified |
| `ConsentService.ConsentService.HasConsent` | src/consent/consent.service.ts:57-70 | all requested scopes are among the stored ones |
| `ConsentService.ConsentService.GetConsentRequest` | src/consent/consent.service.ts:94-112 | lookup, expiry and consumption, as specified |
| `AdminTokens.RevokedIsNeverAccepted` | src/admin-auth/admin-auth.service.ts:180-198 | a revoked token is never accepted again: the memory alone suffices for one process, the table alone across restarts |
| `AdminTokens.UnrevokedIsAcceptedUntilExpiry` | src/admin-auth/admin-auth.service.ts:276-341 | a token nobody revoked is accepted exactly until it expires |
| `AdminTokens.SignedTokenLivesAnHour` | src/admin-auth/admin-auth.service.ts:159-170 | a token signed and never revoked is accepted for exactly 3600 whole seconds, through sweeps and restarts |
| `AdminTokens.RevokedExactly` | src/admin-auth/admin-auth.service.ts:180-198 | the entries a revocation leaves |
| `AdminTokens.SweptExactly` | src/admin-auth/admin-auth.service.ts:40-60 | exactly the expired entries go |
| `AdminAuthService.AdminAuthService.RevokeToken` | src/admin-auth/admin-auth.service.ts:180-198 | the memory entry is replaced, the row only created |
| `AdminAuthService.AdminAuthService.Cleanup` | src/admin-auth/admin-auth.service.ts:40-60 | the loop and the sweep drop exactly the expired entries |
| `AdminAuthService.AdminAuthService.ValidateAdminToken` | src/admin-auth/admin-auth.service.ts:296-334 | accepts exactly unexpired tokens that neither denylist holds |
| `ContinuousSignals.AggregateIsBetween` | src/continuous-verification/continuous-risk-signals.ts:446-455 | the rounded weighted mean stays within the range of its signals |
| `ContinuousSignals.ServiceScoreIsBounded` | src/continuous-verification/continuous-risk.service.ts:119-147 | no observation takes the risk service above 38 points |
| `ContinuousSignals.EvaluatorScoreIsBounded` | src/continuous-verification/session-risk-evaluator.ts:484-560 | no findings take the session evaluator above 40 points |
| `ContinuousSignals.SignalsAloneNeverEscalate` | src/continuous-verification/continuous-risk.service.ts:147-166 | on both paths HIGH and CRITICAL need contributing policies, and so do step-up and termination at the default thresholds |
| `TrustLaws.BehaviourExactly` | src/continuous-verification/continuous-risk-signals.ts:313-400 | the behaviour signal, from five samples and deviations above seven tenths |
| `TrustLaws.DefectScores` | src/continuous-verification/continuous-risk-signals.ts:80-170 | what one defect of the device scores |
| `TrustLaws.FindingScores` | src/continuous-verification/session-risk-evaluator.ts:484-560 | what one finding scores |
| `TrustScore.TrustIsAlwaysAPercentage` | src/continuous-verification/continuous-risk.service.ts:651-673 | in every run of assessments and sweeps trust is a whole number from 0 to 100 |
| `TrustScore.IdleSessionIsSwept` | src/continuous-verification/continuous-verification.scheduler.ts:190-211 | a sweep takes only sessions that go on, have trust left and were last evaluated more than a day ago, and all of them while they fit in a batch |
| `TrustLaws.AssessmentsDrainTrust` | src/continuous-verification/session-risk-evaluator.ts:669-687 | n assessments at one level, with any sweeps in between, leave at most max(0, trust - 30n), 15n at HIGH, 5n at MEDIUM |
| `TrustLaws.FourCriticalAssessmentsEndTrust` | src/continuous-verification/continuous-risk.service.ts:651-673 | four critical assessments leave a new session no trust |
| `TrustLaws.AssessedAtOnce` | src/continuous-verification/continuous-risk.service.ts:651-673 | without decay exactly 30, 15 or 5 points go, or two are gained |
| `TrustLaws.AssessedLater` | src/continuous-verification/continuous-risk.service.ts:651-673 | after a while the points come off what decay leaves, to the nearest whole |
| `TrustLaws.DecayExactly` | src/continuous-verification/continuous-risk.service.ts:651-663 | five per cent an hour, at most half |
| `TrustLaws.ProfileExactly` | src/continuous-verification/continuous-risk.service.ts:168-202 | what an assessment writes besides the trust |
| `TrustLaws.BandsExactly` | src/continuous-verification/continuous-risk.service.ts:642-649 | the bands of the levels and of the actions |
| `TrustScore.SweepsHalveTrust` | src/continuous-verification/continuous-verification.scheduler.ts:190-234 | k sweeps leave exactly trust divided by 2^k, rounded up |
| `TrustScore.SweepsStopAtOne` | src/continuous-verification/continuous-verification.scheduler.ts:224-234 | sweeps never reach zero, and seven of them reach one |
| `TrustScore.LowRiskRaisesTrustIff` | src/continuous-verification/continuous-risk.service.ts:664-672 | a LOW assessment raises trust exactly while decay costs at most a point and a half |
| `TrustScore.HourlyLowRiskRaisesOnlyUpToThirty` | src/continuous-verification/continuous-risk.service.ts:675-695 | at the hourly pace set for LOW sessions only scores up to 30 rise |
| `TrustService.RiskProfiles.AssessContinuousRisk` | src/continuous-verification/continuous-risk.service.ts:68-202 | the risk service's profile update, as specified |
| `TrustService.RiskProfiles.EvaluateSession` | src/continuous-verification/session-risk-evaluator.ts:66-163 | the session evaluator's profile update, as specified |
| `TrustService.RiskProfiles.ApplyTrustDecay` | src/continuous-verification/continuous-verification.scheduler.ts:190-242 | the loop over the batch updates exactly its rows, in any order |
| `PercentEncoding.FromToUtf8` | benchmarks/k6/shared-scenarios.js:500 | every character is read back from its UTF-8 bytes |
| `PercentEncoding.ToFromUtf8` | benchmarks/k6/shared-scenarios.js:510-511 | the reader takes a character in no other form: no overlong sequences, no surrogates |
| `PercentEncoding.DecodeEncode` | benchmarks/k6/shared-scenarios.js:500-511 | decoding undoes encoding on every well-formed string |
| `PercentEncoding.EscapesAreCanonical` | benchmarks/k6/shared-scenarios.js:510-511 | an escaped character is accepted only where all its UTF-8 bytes are spelled out |
| `PercentEncoding.EncodedHasNoSeparators` | benchmarks/k6/shared-scenarios.js:500 | encoded text holds no ampersand, equals sign, plus sign or space |
| `FormLaws.EncodedIsSameIff` | benchmarks/k6/shared-scenarios.js:500 | a text is printed as it is exactly when all its characters are unreserved |
| `FormLaws.ReservedIsEscaped` | benchmarks/k6/shared-scenarios.js:500 | any other character becomes the upper-case escapes of its UTF-8 bytes |
| `FormCodec.ParseForm` | benchmarks/k6/shared-scenarios.js:505-515 | the loop computes the specified map, or fails where decoding throws |
| `FormCodec.FormRoundTrip` | benchmarks/k6/shared-scenarios.js:497-515 | parsing the printed text gives exactly the entries that have a value |
| `FormCodec.PrintingIsInjective` | benchmarks/k6/shared-scenarios.js:497-502 | two objects print alike only if they have the same entries |
| `FormLaws.PlusReadsAsSpace` | benchmarks/k6/shared-scenarios.js:510-511 | a plus sign reads as a space |
| `FormLaws.BareKeyIsEmpty` | benchmarks/k6/shared-scenarios.js:509-511 | a key without an equals sign has the empty value |
| `FormLaws.LastPairWins` | benchmarks/k6/shared-scenarios.js:512 | of two pairs with one key the later one counts |
| `FormLaws.FailsExactly` | benchmarks/k6/shared-scenarios.js:505-515 | parsing throws exactly when some pair cannot be decoded |
| `Text.SplitJoin` | benchmarks/k6/shared-scenarios.js:501-507 | splitting undoes joining when no part holds the separator |
| `Ordering.SortBySorts` | src/authorization/policy-engine.ts:429-431 | the sort orders its input and keeps its elements |
| `Ordering.FindInSorted` | src/authorization/policy-engine.ts:429-441 | the first match of the sorted list is the least by key, the earliest among equals |

## Left out

- SessionTokenSafety.StepKeepsInv: each request of `SessionTokens` is one atomic step over the tables; refreshes call by call are in `RefreshRace`, session-limit trims in `LimitRace`, code exchange and device polls in their own modules. The trim of a service account's sessions is not interleaved with another's.
- SessionTokenSafety.SessionHasOneLiveTokenAndOneBinding: claims the acr only; the amr recorded on the session and on the first token differ for some grants.
- RoleResolution.AccessIsFilled: the count of names needs `client` to be loaded exactly when the foreign key is set; client ids that name members of `Object.prototype` are not modelled.
- FlowSafety.CompletionMeansAllRequiredSucceeded: needs a caller that always answers the current step, and gives the sufficient half for all flows; the exact conditions are in `FlowMoves` and `FlowWalks`.
- FlowRoutes.SafeExactlyWhenUnavoidable: the graph form, for optional steps whose conditions can be made to hold and fail independently of each other and of the user object; `FlowMoves.SafeExactlyWhenInescapable` has no such restriction. `FlowBypass.SafeExactlyWithoutBypass` likewise.
- FlowWalks.SafeExactlyWithoutBypassing: flows in which a one-time code can be asked for before any step has identified a user, a step of unknown type has to be passed, or a step falls back past a required one but no context makes its condition hold are decided by the moves of `FlowMoves` instead.
- Lockout.LocksExactlyOnFullWindow: permanence is stated on the retained failures, as the code counts them; `PermanenceNeedsOneCycle` says for which settings they decide like the full log.
- CodeExchangeSafety.CodeYieldsOneSession: SHA-256 with base64url is an abstract function, so nothing is claimed about guessing a verifier.
- FormCodec.FormRoundTrip: strings are sequences of Unicode scalar values; unpaired surrogates, on which encodeURIComponent throws, do not occur.
- AdminTokens.RevokedIsNeverAccepted: every token carries an id and expires 3600 seconds after signing; `revokeToken` is called with its default lifetime.
- TrustLaws.AssessmentsDrainTrust: an assessment is one atomic step, so a profile is created at the time of its first assessment and no update is lost to a concurrent writer.
- ContinuousSignals.ServiceScoreIsBounded: the network signal is the constant one the service computes, since it fills in a context with every indicator off; weights and scores are exact real numbers.
- Client authentication in `SessionTokens` events has already succeeded; it is modelled in `ClientAuth`. Scopes arrive as lists of names, ids and token hashes are fresh, and the two secrets' comparison is a flag.
- Passwords, Argon2, token signing, id tokens, TOTP and WebAuthn cryptography, LDAP, brokered login, mail, events and metrics.
- Scope narrowing on refresh: the requested scope is taken as given, as in the code. The realm of a refreshed token is not checked, as in the code.
- JavaScript's loose conversions (`Number`, `String`, `parseInt`), regular expressions and locale comparison are parameters of the policy engine; numbers, CIDR octets and prefix lengths are integers. Reason texts are not modelled.
- Members of JSON values that come from JavaScript prototypes.
- LimitRace.LimitExceededByOverlapOnly: evicting deletes the sessions in one step, tokens and expiry times are left out, and which sessions are the oldest is not said.
- CacheRace.ServedIsAtMostALifetimeOld: Redis answers throughout; its coming and going is in `PolicyCache`. Cache keys are abstracted to realms, and the JSON round trip of a cached list is the identity.
- The order the database returns rows in when sort keys tie: arbitrary for sessions, insertion order for policies and consent history.
- Policy conditions of continuous verification: their point contribution is a parameter. `evaluateSessionsBatch` only counts calls of `EvaluateSession`.
- TOTP and WebAuthn failure counters and their part of the sweep.
- `parseFormBody`, which copies the parsed map into an object; a key named `__proto__` behaves differently there.
- Create, update and removal of flows, HTTP controllers, guards, the admin console, SDKs and the remaining load scripts.
