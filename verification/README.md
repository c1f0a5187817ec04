# Verified models of gobox

Gobox is a set of Go packages around authentication, HTTP, pagination, configuration and
messaging. This project models the parts that hold real state machines, caches and
transformations and proves what they keep, in every run and for every input.

- **Sessions** (`Sessions`, `SessionProtocol`, `SessionSafety`, `SessionGrants`,
  `SessionDrops`, `SessionIdle`, `SessionTokens`, `SessionHistories`, `SessionManager`).
  Server-side sessions that are read without a lock, refreshed under one, and deleted outside it. A state holds a clock, the store, an issuer
  that rotates refresh tokens (sections 6 and 10.4 of RFC 6749), the requests in flight, each
  with the `now` it captured and its snapshot, and the history of grants. A run is any
  sequence of actions: logins, steps of any request, logouts, cleanups, time passing. An
  action that is not enabled changes nothing, so "every run" means every interleaving.
  The manager itself is a class over a mutable store, proved to make exactly the steps of one
  request of that protocol.
- **Verification caches** (`Caches`, `Introspection`, `IntrospectionSafety`,
  `IntrospectionTheorems`, `Verifier`, `VerifierSafety`, `VerifierRuns`, `VerifierCalls`,
  `Oidc`). Introspection (section 2.2
  of RFC 7662) with a cache, coalesced requests and waiters that store late; and
  `OIDC.Verify` with its whole-result cache in front. How old an accepted answer can be is a
  theorem over every interleaving of both. The classes are proved to do, in plain
  terms, exactly what one undisturbed call does as a run of the protocol.
- **Rate limiting** (`RateLimit`, `RateLimitTheorems`, `RateLimitBudget`,
  `RateLimitConformance`, `RateLimitDenials`). Per-key token buckets in exact integers: time in
  nanoseconds, one token is 60 000 000 000 units; with and without the library's cutting of
  waits to whole nanoseconds. What they admit is also said without buckets, by a rule on the
  admissions alone.
- **Filters and pages** (`Like`, `Filters`, `FilterParsing`, `FilterMeaning`, `Paginator`,
  `PaginatorRounding`).
  Filter trees printed to SQL with placeholders, read back by a parser, and evaluated in the
  three-valued logic of section 8.12 of SQL-92 with LIKE as in its section 8.5.
- **Configuration** (`ConfigEvents`, `ConfigLoader`). Subscribers' channels, reloads,
  debouncing.
- **Smaller cores**: `Progress` (a slot pool with workers between channel and lock), `Retry`
  (backoff in int64, bounded attempts), `Truncate` (UTF-8, section 4 of RFC 3629),
  `RoleContexts` (order-independent merging).

Classes carry the fields the Go types update; what they compute is given by functions on
values, and the theorems are about those functions and about runs of them. The methods'
contracts also state results and new state in numbers, literals and fields of their own.

## Where the code and its documentation differ

- `oidcauth/session_manager.go:311-313` says a session's ceiling can only stay the same or
  shrink. A refresh that reports a refresh lifetime can move it later: `CeilingCanMoveLater`
  is an example, `CeilingStaysOrShrinksIff` the exact condition.
- `oidcauth/session_manager.go:240-243` deletes after a failed grant outside the lock, so a
  failing caller can remove the session another caller has just refreshed
  (`LateDropRemovesARefreshedSession`). It does so exactly when the stored access token lies
  ahead of the caller's own `now`: `DropLosesARefreshIff`. The deletes at lines 178-181 and
  185-187 can do the same (`ExpiredReadRemovesARefreshedSession`,
  `RejectedReadRemovesARefreshedSession`). For all three the exact condition is that the stored
  access expiry has grown since the read: `DropAfterReadLosesARefreshIff`.
- `oidcauth/session_manager.go:190` says a missed touch is what makes idle expiry stricter. So
  does a late one: it writes the `now` its request captured, which moves LastSeenAt back.
  `IdleExpiredThoughUsedIff` says exactly when a session in use is idle-expired.
- `oidcauth/README.md:396` says a revoked token stays valid for up to the cache duration. With
  the result cache and the introspection cache both on, the two windows add up, and so does the
  time a request takes, since the issuer may decide as soon as it starts: `RevocationWindow` is
  the bound, `WindowsAddUp` reaches it, and `OneWindowIff` says when the single window is right:
  when requests and introspection entries together last two nanoseconds, so in effect never.
- A JWT's result entry ignores an earlier expiry only introspection reported
  (`ReportedExpiryIsNotKeptForJwts`); `ServedPastReportedIff` says exactly when that shows.
- `oidcauth/README.md:388` offers `ClearCache` for a revocation that must take effect at once.
  A request outstanding at the clear still answers later callers, and a waiter that held an
  answer can store it after the clear: `ClearCacheIsFinalIff` says exactly when.
- Eviction of idle limiters is meant to be invisible. It is exactly when the burst refills in
  the idle time: `EvictionInvisibleIff`. Exactly then, too, does the limiter
  keep to the rule of the burst and the rate (`ConformsIffRefills`) and do denied requests not
  matter to others (`DenialsNeverMatterIff`).
- `retry/retry.go:41-42` gives the delay as a doubling capped at the maximum. The first delay
  is never capped, and a negative delay, or a doubling between 2^62 ns and the cap, wraps
  around: `IdealIffRegular`.
- `httpclient/client.go:180-183` speaks of a wait before the next attempt. The last attempt
  waits too, with no attempt after it: the total in `WithRetry` counts four such waits.
- `config/viper.go:141-156` stores a configuration before it validates it:
  `LoadWithValidation`.

## Model

| member | source | states |
|---|---|---|
| Sessions.RefreshWithoutLifetimeKeepsCeiling | oidcauth/session_manager.go:314-376 | a refresh never drops the refresh token; without a reported refresh lifetime the ceiling is exactly unchanged |
| Sessions.CeilingStaysOrShrinksIff | oidcauth/session_manager.go:306-332 | the exact condition under which a refresh does not move the ceiling later |
| Sessions.CeilingCanMoveLater | oidcauth/session_manager.go:368-370 | a concrete refresh that moves the ceiling from minute 60 to minute 110 |
| SessionSafety.StoredTokensAreCurrent | oidcauth/session_manager.go:205-247 | in every interleaving each stored refresh token is the issuer's current one, each ceiling is the formula's value and below the cap, no grant presents a spent token |
| SessionSafety.SessionsKeepTheirIdentity | oidcauth/session_manager.go:232-237 | every run keeps id, claims, creation time and the presence of a refresh token of each session that survives it |
| SessionSafety.RemovedSessionsStayRemoved | oidcauth/session_manager.go:240-269 | an id removed from the store never reappears, and no Resolve begun later succeeds for it |
| SessionSafety.SuccessfulResolveIsFresh | oidcauth/session_manager.go:163-247 | by any of its exits and under any interference, a successful Resolve returns the session asked for, with its access token unexpired and before the absolute cap at its own now |
| SessionSafety.SuccessfulResolveIsBelowItsCeiling | oidcauth/session_manager.go:163-247 | and before its own ceiling when reported refresh lifetimes are at least a second |
| SessionGrants.NoGrantBeforeTheLastOneExpires | oidcauth/session.go:93-105 | in every interleaving a grant is made only by a caller whose now is at or past the access expiry of every earlier successful grant for the session |
| SessionGrants.ConcurrentCallersShareOneGrant | oidcauth/session_manager.go:205-238 | any number of callers that found the same access token expired cause exactly one grant and all succeed with its tokens, whatever else happens short of another refresh, a removal or an idle expiry of the session |
| SessionDrops.DropLosesARefreshIff | oidcauth/session_manager.go:240-243 | after any history and in every continuation, the delete of a caller rejected under the lock loses another's refresh if and only if the stored access token lies ahead of the caller's own now |
| SessionDrops.LateDropRemovesARefreshedSession | oidcauth/session_manager.go:240-243 | wherever two callers wait for the same lock, a schedule in which the delete of one removes the session the other refreshed |
| SessionDrops.DropAfterReadLosesARefreshIff | oidcauth/session_manager.go:173-187 | after any history and in every continuation, a stored session's access expiry has grown since a read if and only if it was refreshed since, so the delete of any failing exit loses a refresh exactly then |
| SessionDrops.ExpiredReadRemovesARefreshedSession | oidcauth/session_manager.go:178-181 | a request that read the session as expired deletes it after another refreshed it |
| SessionDrops.RejectedReadRemovesARefreshedSession | oidcauth/session_manager.go:184-188 | a request whose revalidation rejected the old access token deletes it after another refreshed it |
| SessionIdle.LastSeenIsTheLastWrite | oidcauth/session_manager.go:190-191 | in every run LastSeenAt is the captured now of the last touch or refresh to reach the store |
| SessionIdle.IdleExpiredThoughUsedIff | oidcauth/session_manager.go:296-304 | after any history a session used within the idle time is idle-expired if and only if the last use to reach the store was a stale one |
| SessionIdle.SlowTouchExpires | oidcauth/session_manager.go:190-191 | two requests whose touches land in the other order expire a session used within the idle time |
| SessionTokens.StoredTokensAreTheLatest | oidcauth/session_manager.go:222-237 | in every interleaving a stored session holds the access token, type and expiry of the last answer the issuer gave for that login, and the refresh token, ID token, scopes and refresh expiry of the last answers that gave them |
| SessionHistories.CleanupChangesNoOutcome | oidcauth/session.go:107-114 | in sequential histories, cleanup passes inserted anywhere change no Resolve outcome |
| SessionManagement.SessionManager.Create | oidcauth/session_manager.go:124-140 | stores exactly the session the login describes: its claims, the tokens of the answer, created and updated now, its ceiling field by field |
| SessionManagement.SessionManager.Resolve | oidcauth/session_manager.go:163-196 | succeeds exactly for a usable session that is fresh and not rejected, or stale and refreshed; fresh it is only touched, refreshed it carries the tokens of the answer and the ceiling they give; otherwise it is removed; and this is what one uninterrupted request of the protocol does |
| SessionManagement.SessionManager.Refresh | oidcauth/session_manager.go:205-247 | answers a session another has refreshed as it is; otherwise one usable with a refresh token and granted gets the tokens of the answer, field by field, and any other is removed; and this is the locked step of the protocol and then its drop |
| SessionManagement.SessionManager.ConvertTokens | oidcauth/session_manager.go:348-376 | access token, type and lifetime, five minutes by default, are the answer's own; refresh token, ID token, scopes and refresh expiry come from it when given and from before when not |
| SessionManagement.SessionManager.Delete | oidcauth/session_manager.go:260-262 | removes that session and nothing else, as the protocol's logout does |
| SessionManagement.SessionManager.CleanupExpired | oidcauth/session_manager.go:267-269 | removes exactly the sessions at or past their ceiling, keeps the rest as they are and counts them, as the protocol's cleanup does |
| Caches.EffectiveExpiry | oidcauth/introspection.go:385-406 | the deadline is the least of TTL, known and reported expiry, strictly in the future; none exactly when the answer must not be cached |
| Caches.KeptUntilIff | oidcauth/introspection.go:385-406 | an answer is kept at an instant if and only if that is before now + TTL and the known expiry and a whole second still falls after it and by the reported expiry |
| Caches.ServedUntilIff | oidcauth/cache.go:48-83 | claims put into the result cache are served at an instant if and only if the duration has not passed and a whole second still falls after it and by their expiry |
| Caches.EvictionIsInvisible | oidcauth/introspection.go:408-437 | eviction changes no lookup at or after its time |
| Caches.DeleteExpired | oidcauth/introspection.go:424-437 | the deleting loop keeps exactly the unexpired entries and counts the rest |
| Caches.MemoryCache.Set | oidcauth/cache.go:59-83 | the claims are kept until the duration has passed or, if sooner, the last whole second not after their expiry, in plain numbers; no other key is touched |
| Caches.MemoryCache.Get | oidcauth/cache.go:48-56 | answers exactly the entries not yet expired |
| IntrospectionTheorems.AtMostOneRequestPerToken | oidcauth/introspection.go:281-287 | in every interleaving at most one request per token is outstanding, answered or not |
| IntrospectionTheorems.EntriesArePositiveAnswers | oidcauth/introspection.go:288-297 | every cache entry is an active answer to a request for that token with deadline at most answer time plus TTL; nothing else is ever stored |
| IntrospectionTheorems.SuccessTracesToAnActiveAnswer | oidcauth/introspection.go:267-303 | every caller's success is the active answer of a request that was outstanding when it called, or one unexpired and less than TTL old then |
| IntrospectionTheorems.EvictionsChangeNothing | oidcauth/introspection.go:424-437 | with evictions anywhere, every caller and every request is as in the run without them |
| IntrospectionTheorems.CancellingIsInvisible | oidcauth/introspection.go:289-302 | a cancelled caller aborts no shared request and changes no other caller's result or entry |
| IntrospectionTheorems.CancellingLosesTheEntry | oidcauth/introspection.go:289-302 | but its own store is lost: a later call that would have hit must ask |
| IntrospectionTheorems.ClearCacheIsFinalIff | oidcauth/introspection.go:305-314 | after any history a later call can be served the answer of a request made before a clear if and only if such a request was outstanding and not answered in the negative, or some waiter held an unexpired answer not yet stored |
| VerifierSafety.VerifyTracesToAnActiveAnswer | oidcauth/oidc.go:181-233 | every successful Verify with introspection on goes back to the active answer of a request outstanding when the originating call began or answered less than TTL before, plus less than the result cache's duration; it returns the JWT's own claims or those of that answer |
| VerifierSafety.RevocationWindow | oidcauth/oidc.go:181-233 | a token not called active in answer to any request made from some instant on is rejected by every call that begins after the exact sum of a request's longest time and both windows |
| VerifierRuns.WindowsAddUp | oidcauth/oidc.go:181-233 | for every request time, TTL and positive duration a run in which a call succeeds at the last instant the bound allows |
| VerifierRuns.OneWindowIff | oidcauth/oidc.go:181-233 | revoked tokens are gone after the result cache's duration if and only if a request's time and the introspection TTL less one nanosecond sum to one at most |
| VerifierSafety.CacheHitsPrecedeKnownExpiries | oidcauth/cache.go:48-83 | neither cache is hit at or past an expiry it knows, in seconds as the claims give it; for an opaque token the result cache's are the claims, and so the expiry, the issuer reported |
| VerifierRuns.ServedPastReportedIff | oidcauth/oidc.go:223-231 | after any history, a live JWT result can be served at or past the expiry its introspection reported if and only if that comes before the expiry the result cache computed from the JWT's own claims |
| VerifierRuns.ReportedExpiryIsNotKeptForJwts | oidcauth/oidc.go:223-231 | a run in which a JWT good for 60 s and reported good for 10 s is served at 20 s |
| VerifierCalls.AnsweredByTheIssuer | oidcauth/introspection.go:267-303 | a lone call that misses ends with the issuer's answer, and only an active one with time to live enters the cache |
| VerifierCalls.VerifiedByIntrospection | oidcauth/oidc.go:216-232 | a lone call is accepted just when its introspection is, with a JWT's own claims, and kept accordingly |
| VerifierCalls.LoneIntrospectionOutcome | oidcauth/introspection.go:267-303 | the protocol's run of a lone call ends with a result and a cache if and only if they are those stated in plain terms: the live entry, or the reply, kept while it has time to live |
| VerifierCalls.LoneVerifyOutcome | oidcauth/oidc.go:181-233 | the protocol's run of a lone verification ends with a result and two caches if and only if they are the outcome stated in plain terms |
| Oidc.Introspector.Introspect | oidcauth/introspection.go:267-303 | an undisturbed call gives the live entry's claims, or those of an active reply, which it keeps while it has time to live; nothing else succeeds or is kept |
| Oidc.Introspector.ClearCache | oidcauth/introspection.go:305-314 | empties the cache and counts what was there |
| Oidc.OIDC.Verify | oidcauth/oidc.go:181-233 | a live result is served as it is; otherwise a JWT must verify and, with introspection on, the cache or the issuer must vouch for the token; a JWT keeps its own claims; an accepted result is kept until the duration or its expiry, and everything else is left alone |
| RateLimit.IpRateLimiter.Retune | httpserver/middlewares/rate_limit.go:72-89 | every live bucket adopts the policy and nothing else changes; an equal policy changes nothing |
| RateLimit.IpRateLimiter.Allow | httpserver/middlewares/rate_limit.go:91-105 | the answer and new state are those of the bucket rule after a due eviction; a denied request only marks its bucket seen, and other keys' buckets change only by the sweep |
| RateLimit.IpRateLimiter.EvictIfDue | httpserver/middlewares/rate_limit.go:110-122 | removes exactly the buckets idle for longer than the timeout, at most once per timeout |
| RateLimit.RetuneKeepsTokens | httpserver/middlewares/rate_limit.go:85-88 | a retuned bucket carries the new policy and holds exactly what it held, up to the new burst |
| RateLimitTheorems.EvictionInvisibleIf | httpserver/middlewares/rate_limit.go:91-122 | under any fixed policy whose burst refills in the idle time all request sequences get the answers of a limiter that never evicts, with the library's rounding or without |
| RateLimitTheorems.EvictionInvisibleIff | httpserver/middlewares/rate_limit.go:91-122 | and only under those; with the rounding, at up to half a token a nanosecond |
| RateLimit.EarlyByLessThanANanosecond | httpserver/middlewares/rate_limit.go:104 | a request is admitted early exactly when the wait for its token, cut to whole nanoseconds, is zero, and a nanosecond later the token is there |
| RateLimitTheorems.TenfoldBurstsRefill | httpserver/middlewares/rate_limit.go:15 | that is, at rates below a token a nanosecond, if and only if the burst is at most ten times the requests per minute |
| RateLimitTheorems.EvictionShows | httpserver/middlewares/rate_limit.go:110-122 | for a policy whose burst falls short by a nanosecond's refill or more, two bursts that are answered differently |
| RateLimitTheorems.KeysAreIndependent | httpserver/middlewares/rate_limit.go:91-105 | each key's answers depend only on its own request times |
| RateLimitBudget.RetuneGainsNothing | httpserver/middlewares/rate_limit.go:85-88 | at the instant of a retune no bucket gains tokens |
| RateLimitBudget.AdmittedWithinBudget | httpserver/middlewares/rate_limit.go:72-105 | in any window of a bucket's life, after any history and across any retunes, admitted requests are at most the burst at its start plus rate times duration over the policies in force, and with the library's rounding less than a nanosecond's refill more |
| RateLimitConformance.AdmittedIffConforming | httpserver/middlewares/rate_limit.go:91-105 | under a policy whose burst refills in the idle time, a request of any key in any sequence is admitted if and only if no window from an earlier admission of its key would then hold more than burst plus rate times length, less than a nanosecond's refill more with the rounding |
| RateLimitConformance.ConformsIffRefills | httpserver/middlewares/rate_limit.go:91-122 | the limiter keeps to that rule on all sequences under exactly those policies; with the rounding, at up to half a token a nanosecond |
| RateLimitConformance.AdmittedOnceRefilled | httpserver/middlewares/rate_limit.go:91-105 | under every policy with a burst of at least one, a request is admitted whenever a token has been refilled since its key's last admission, whatever was denied or swept in between |
| RateLimitDenials.DeniedChangesNothing | httpserver/middlewares/rate_limit.go:104 | in any state, a known key's denied request leaves every later answer as if it had not been made, sweeps apart |
| RateLimitDenials.DeniedRequestsDoNotMatter | httpserver/middlewares/rate_limit.go:91-122 | where the burst refills in the idle time, taking any denied request out of any sequence over all keys changes no other answer, sweeps included |
| RateLimitDenials.DenialsNeverMatterIff | httpserver/middlewares/rate_limit.go:91-122 | and at rates of at most half a token a nanosecond under exactly those policies |
| Like.EscapedMatchesOnlyItself | pagination/helper.go:14-38 | an escaped term matches exactly itself |
| Like.WrappedMatchesSubstrings | pagination/helper.go:28-38 | between percent signs it matches exactly the values that contain the term, for all strings |
| Like.FoldCommutesWithEscape | pagination/gorm_scope.go:80-82 | escaping commutes with a per-character case folding that keeps the special characters |
| Filters.FilterExpr | pagination/gorm_scope.go:68-86 | the clause and arguments are those of the tree; for a condition the text and the arguments are spelled out per operator, a LIKE value rendered, escaped and wrapped |
| Filters.GroupExpr | pagination/gorm_scope.go:88-113 | empty members are skipped with their arguments, the rest joined in order |
| Filters.ApplyFilters | pagination/gorm_scope.go:57-66 | one clause per filter that is not empty, arguments in order |
| FilterParsing.EmptyPrintsNothing | pagination/gorm_scope.go:104-106 | a filter prints nothing if and only if it is a group with nothing but empty groups |
| FilterParsing.PrintThenParse | pagination/gorm_scope.go:68-113 | the clause, read with AND binding tighter than OR, is the tree with empty groups pruned and unknown operators read as AND |
| FilterParsing.WhereThenParse | pagination/gorm_scope.go:57-66 | so is the conjunction of the clauses of a list |
| FilterMeaning.WhereMeansTheFilters | pagination/gorm_scope.go:57-113 | for every row the WHERE clause is true, false or unknown exactly as the filters are, each placeholder taking the next argument with none left over and no data exception; LIKE filters look for their value literally |
| Paginator.NormalizeIsIdempotent | pagination/paginator.go:18-28 | every page becomes normal and exactly the normal ones are left alone |
| Paginator.Page.Normalize | pagination/paginator.go:18-28 | numbers below 1 become 1, sizes below 1 become 20 and sizes above 100 become 100 |
| Paginator.TotalPagesIsLeast | pagination/paginator.go:51-52 | the page count is the least that holds the total |
| PaginatorRounding.FloatPageCountIsExact | pagination/paginator.go:52 | for every total below 2^53 the division rounded to float64 gives the exact page count |
| Paginator.PagesCoverTheRows | pagination/paginator.go:31-33 | the windows of pages 1 to the last concatenate to exactly the rows |
| Paginator.FlagsAreRight | pagination/paginator.go:51-63 | HasNext holds iff rows remain after the page, HasPrev iff rows are skipped; the rows, total, number and size are the page's own |
| Paginator.PagesWithANextAreFull | pagination/paginator.go:31-33 | a page with a next one is full, and the next one has rows |
| Paginator.OnlyCountedPagesHaveRows | pagination/paginator.go:51-63 | a page has rows iff it is one of the counted pages |
| ConfigEvents.ListedAreTheOpenChannels | config/viper.go:166-187 | in every interleaving of subscribe, unsubscribe, notify, receive and stop the listed subscribers are exactly the open channels; nothing is closed twice or sent to after closing |
| ConfigEvents.SubscribersSeeEventsInOrder | config/viper.go:326-368 | what a subscriber took and what still waits for it are the notifications made while it was listed, in order, without exactly those that found ten pending |
| ConfigEvents.NotificationsReachOpenChannels | config/viper.go:341-346 | a notification reaches every open channel once, no closed one, and is dropped exactly where ten are pending |
| ConfigEvents.ReloadsStayValidAndReplay | config/viper.go:190-214 | over any reloads a valid configuration stays valid, every event tells what became of its own load, with its very failure, and the events replay to the current configuration |
| ConfigEvents.ReloadsAtQuietEnds | config/viper.go:305-323 | for any file events reloads happen exactly at the ends of quiet spells, with the timer of the last event armed |
| ConfigEvents.BurstReloadsOnce | config/viper.go:305-323 | events whose gaps are below the debounce cause exactly one reload, one debounce after the last |
| ConfigEvents.AtMostOneTimer | config/viper.go:218-227 | in every run of events, stops and passing time at most one timer is armed, none once stopped, and after a stop nothing goes off |
| ConfigEvents.NothingAfterAStop | config/viper.go:218-227 | once stopped, whatever was armed and whatever files change later, nothing goes off |
| ConfigLoading.Loader.Subscribe | config/viper.go:166-173 | makes the subscribe step: one new, open and empty channel, listed last |
| ConfigLoading.Loader.Unsubscribe | config/viper.go:176-187 | closes and unlists exactly the named channel, if listed, shifting the rest |
| ConfigLoading.Loader.Notify | config/viper.go:326-368 | makes the notify step on every listed channel without ever sending to a closed one |
| ConfigLoading.Loader.Stop | config/viper.go:218-236 | closes every listed channel once, empties the list and disarms the timer for good |
| ConfigLoading.Loader.Load | config/viper.go:120-138 | what was parsed is current even when watching cannot start |
| ConfigLoading.Loader.LoadWithValidation | config/viper.go:141-156 | what was parsed is current whatever the outcome, which is determined; success means it is valid, rejection that an invalid one is current |
| ConfigLoading.Loader.Reload | config/viper.go:190-214 | the failure is the one of loading, or the refusal of the validator; without one the configuration is current, with one nothing changes; subscribers get that very failure or the change |
| ConfigLoading.Loader.DebouncedReload | config/viper.go:305-323 | cancels the timer in hand and arms a new one, a debounce from now, unless stopped |
| ConfigLoading.Loader.TimerFired | config/viper.go:320-322 | going off once, the timer makes one reload |
| Progress.SlotsAreNeverLostOrShared | cli/progress.go:61-102 | in every interleaving each slot is free exactly once or owned by exactly one worker, the two add up, and free slots are idle |
| Progress.ReleaseNeverBlocks | cli/progress.go:97-102 | a worker that owns a slot can always return it; taking one blocks only while all are owned |
| Progress.Progress.constructor | cli/progress.go:61-80 | a pool of at least one idle free slot each |
| Progress.Progress.Acquire | cli/progress.go:84-93 | takes the first free line and marks it running with its description: the channel step and then the locked step of the protocol |
| Progress.Progress.Release | cli/progress.go:97-102 | marks the line idle, keeping its texts, and puts it last: the locked step and then the channel step |
| Progress.Progress.Done | cli/progress.go:112-118 | changes the message and status of that slot only |
| Progress.Progress.Fail | cli/progress.go:121-127 | so does a failure |
| Truncate.CutsAreAtStarts | fcm/message.go:88-90 | in UTF-8 text the prefixes that are UTF-8 are exactly those before a starting byte |
| Truncate.StartWithinThree | fcm/message.go:88-90 | a starting byte is at most three bytes away |
| Truncate.TruncateBytes | fcm/message.go:84-92 | for every text and limit the longest UTF-8 prefix within the limit, losing at most three bytes; on other bytes a prefix cut at the nearest starting byte |
| Truncate.NewSendRequest | fcm/message.go:56-82 | title and body cut to 512 and 2048 bytes, the four keys overwritten, every other key kept, an empty address refused |
| Retry.IdealIffRegular | retry/retry.go:41-52 | the documented delay holds at every attempt an int can count iff the minimum is neither negative nor above the cap and no doubling lies between 2^62 and the cap |
| Retry.SmallCapsAreRegular | retry/retry.go:43-52 | with 0 <= waitMin <= waitMax < 2^62 the delay is min(waitMin * 2^(attempt-1), waitMax) with no overflow |
| Retry.DelayDoublesUpToTheCap | retry/retry.go:41-42 | the documented delay is the minimum at first, twice the one before at every further attempt, and the cap from where that would exceed it |
| Retry.WrapsInTheGap | retry/retry.go:43-52 | when a doubling lies between 2^62 and the cap, the wait after it comes out negative |
| Retry.Backoff | retry/retry.go:43-52 | the loop with its wrap-around is the doubling function |
| Retry.Do | retry/retry.go:12-38 | the attempts are exactly those up to the first that succeeds, is last, is not retryable or is cut short; never one after a success; the error, the number of waits and each wait are determined |
| Retry.WithRetry | httpclient/client.go:184-228 | at most 4 calls, going on exactly over statuses 429 and 500 to 599 and over errors that are not the context's; which answer or error is returned; and the exact wait, 200, 400 and 800 ms besides at most 30 s after each call |
| RoleContexts.Apply | httpserver/middlewares/authorization.go:186-203 | fails iff two applicable entries disagree on a key, changing nothing; otherwise adds exactly their union, whatever the map orders |
| RoleContexts.OrderDoesNotMatter | httpserver/middlewares/authorization.go:183-185 | lists with the same entries in any order conflict together and add the same values |

## Left out

- HTTP, JSON, OIDC discovery, JWT signatures, SHA-256 digests, UUIDs and clocks: their results are parameters, and a token stands for its digest.
- Malformed session ids, store errors other than not found, commit failures inside `WithLock`, and issuer answers lost after rotation: the store meets its contract, and the issuer rotates exactly on a successful answer.
- Goroutines and mutexes: each critical section or channel operation is one step.
- When the issuer decides on a token is not known: the theorems date an answer by its request's start, its computation and its landing.
- Oidc.OIDC.Verify: is one call nobody interrupts, for a token nobody else is asking about; interference is the subject of the protocol theorems, and errors are not told apart.
- SessionManagement.SessionManager.Resolve: is proved for a run nobody interrupts; interference is the subject of the protocol theorems.
- SessionManagement.SessionManager.ConvertTokens: does not model the int64 wrap-around of a refresh lifetime beyond 292 years.
- SessionSafety.SuccessfulResolveIsFresh: assumes positive access-token lifetimes and a clock that does not go back.
- RateLimit.IpRateLimiter.Allow: takes one clock reading where the code takes three, and exact integers for the library's floating-point tokens; only the cutting of waits to nanoseconds is modelled.
- RateLimitDenials.DenialsNeverMatterIff: leaves the converse open beyond 30 000 million requests a minute, cut or not.
- RateLimitTheorems.EvictionInvisibleIff: with that cutting, leaves the converse open beyond 30 000 million requests a minute; so does RateLimitConformance.ConformsIffRefills.
- PaginatorRounding.FloatPageCountIsExact: from 2^53 + 1 on the total itself may not be a float64; integers are otherwise unbounded.
- FilterParsing.PrintThenParse: field names contain no space, parenthesis or question mark; operators outside the declared list and nested list values are left to the database layer, as are collations and SQL Server's bracket classes.
- FilterMeaning.WhereMeansTheFilters: the comparison operators other than LIKE are a parameter of the row; ILIKE folds character by character and keeps the special characters.
- Filters.ApplyFilters: sorting, LIMIT and OFFSET, the fluent builders, ParseSort and derefVal would only add easy members.
- ConfigLoading.Loader.Reload: is one step for one loader, reloads do not overlap, and the callbacks run elsewhere; the file system, environment expansion and unmarshalling are its input.
- ConfigLoading.Loader.DebouncedReload: a timer due at the instant of an event goes off before it; a reload already running when the loader is stopped runs on.
- Progress.Progress.Acquire: rendering, Start and Stop are not modelled, and a free slot is required where the code would block.
- Truncate.NewSendRequest: the trimmed address is an input, and the request is not encoded.
- RoleContexts.Apply: values are integers, so the comparison of values Go cannot compare is not modelled.
- Retry.WithRetry: sleeps count at full length even when a cancelled context would cut them short.
- The manager's Peek, Verify and HasRole, the OAuth2 token manager, login-state codec, CORS and CSRF middleware, logging, telemetry, workflow, database, health, encryption and spreadsheet packages.
