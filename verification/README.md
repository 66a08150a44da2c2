# edge-dns: a verified model

A Dafny 4.11 model of the parts of edge-dns that decide something, with proofs of what they guarantee.
`dafny verify dfyconfig.toml` checks everything. The components, and what is proved about each:

* **Rate limiter** (`RateLimit.dfy`, `Limiter.dfy`, `Overtaking.dfy`). The Redis script over a per-user sorted set is shown to
  compute the greedy sliding-window policy on every run of a user's calls, with or without its EXPIRE and
  whenever Redis reclaims the dead key. The greedy policy keeps every window within the limit, refuses only
  when the window is full, and admits at every point at least as many requests as any rival that keeps the bound.
  It fails open by no more than the queries it leaves unanswered. When calls overtake one another between the
  caller's clock and the script, windows shorter by that lag stay bounded; exactly when the full window does, and
  exactly when EXPIRE can be seen, is a condition on limit, window and lag.
* **SNI proxy** (`Wire.dfy`, `Net.dfy`, `ClientHello.dfy`, `SniProxy.dfy`). The ClientHello format is written
  as an encoder; the cursor-driven parser accepts exactly the encodings and returns exactly the encoded name,
  inside one TLS record and under any chunking of reads. The relay never loses, repeats or reorders bytes, and
  a direction that ends with the end of file has delivered all of them.
* **Rule engine** (`Text.dfy`, `Wrappers.dfy`, `Patterns.dfy`, `Cache.dfy`, `Settings.dfy`, `Checker.dfy`, `Redirects.dfy`,
  `Rule.dfy`). Candidate patterns, longest match, fallback list, cache keys, cache eviction, redirect edits.
* **Invalidation protocol** (`Sync.dfy`, `Admin.dfy`, `Invalidation.dfy`, `RedirectHits.dfy`, `Lookups.dfy`,
  `Convergence.dfy`).
  Admin writes, publishes, lost and delivered events, interleaved with block checks and redirect lookups that
  send each Redis command and fill the cache in separate steps: bounded staleness and convergence in every
  interleaving, and exactly when a delivered clear is good for good.
* **Query handler** (`Handler.dfy`). Caching is invisible in the answers; where it shows in the log is exact.
* **Log aggregator** (`Aggregator.dfy`). Conservation and order of logs in every interleaving.
* **DNS-over-TLS framing** and **upstream response cache** (`Dot.dfy`, `UpstreamCache.dfy`).

Conventions. Objects whose methods update fields are classes; their methods are proved against functions on
values (`CheckStep`, `Script`, `Step`, ...), and the theorems are about all runs of those functions. Times are
milliseconds handed to a call as parameters. What the environment does during a call (Redis reachable or not,
reply lost, read portion, ClickHouse outcome) is a parameter or a nondeterministic choice, so the theorems
hold for all of it. A write command has three outcomes (`Reply`): acknowledged, not executed, or executed with
the reply lost.

Assumptions.

* Statements about several users at once take a set `users` that the key scheme keeps apart (`Cache.Apart`).
  `ApartIffNoCollisions` shows that this is exactly the absence of shared cache keys, and `ColonFreeUsersAreApart`
  that it holds for any users without a colon in their ID, other than `redirect`.
* The limiter's `now` is not negative; limit and window are fixed over a user's run. The greedy theorems take
  scripts to run at the time they were called and in that order; `OvertakenCallsKeepShorterWindows` does not. From
  its deadline, by the server's clock, a key may be reclaimed at any moment (`reaped`).
* `math.Ceil(window.Seconds())` is taken exactly; float64 rounding cannot lose a whole millisecond in the
  range of a Go `Duration`.
* `net.ParseIP(s).To4() != nil` is a parameter `isIPv4` that rejects the empty string; the upstream resolver is
  a fixed function of the query where answers are compared.
* `strings.ToLower` is modelled on ASCII.
* A read on a connection delivers at least one byte or an error.

Where code and intent differ, the model follows the code, and says exactly when:

* User IDs may contain colons, and cache keys are joined with colons: `KeysCollide` gives every collision,
  `SweepCovers` every key a sweep takes, for all user IDs. The user `redirect` sweeps everybody's redirects
  (`ColonFreeSweep`), and block checks for it, or for a user whose ID starts with `redirect:`, are the ones that
  can fail a type assertion (`PanicsIffUnsafe`).
* A name ending in two dots is normalised twice for block rules and once for redirects: `NormalizeTwice`,
  `DoubleDotSplitsDecisions`, `UncheckedIsDisabled`.
* The administration API stores domains unnormalised: `StoredNameTakesEffectIff` says which stored names can
  ever take effect, `OwnNameMatchesIff` which match themselves.
* Editing a wildcard redirect evicts one key only: `EditCoherentIffSafe` says when that suffices, and
  `LostReplyCoherentIff` when an edit whose reply is lost needs no eviction at all.
* A redirect lookup issues several commands: `RacingReadsFitIff` says for which overlapping edits it still
  answers as one version of the store.
* A lookup overtaken by a clear fills the cache with an old answer: `ClearHoldsIff`, `LateFillSurvivesClear`.
* A call overtaken on its way to the limiter's script can break the bound for the full window, and meet a key that
  EXPIRE has removed too early: `FullWindowIff`, `ExpiryUnobservableIff`.
* A cached empty redirect makes the next query be logged as redirected: `CachingIsInvisible`,
  `RepeatLoggedAsRedirected`.
* Shutdown does not drain the log channel: `ShutdownAccounts` says when `submitted = flushed + dropped` holds all
  the same, `ShutdownLeavesLogs` that it can fail.
* A response from the upstream cache carries the ID of the query that fetched it: `ForeignIff`, `RunForeignIff`.
* With an empty window and a zero limit the limiter is not optimal: `OptimalIffProper`.
* A DNS-over-TLS header that arrives in two pieces desynchronises the stream: `ReadBackIff`.

## Model

| member | source | states |
|---|---|---|
| RateLimit.GreedyAt | internal/ratelimit/limiter.go:24-33 | a request is admitted if and only if fewer than `limit` earlier admissions lie in the window ending with it |
| RateLimit.InWindowCounts | internal/ratelimit/limiter.go:24-25 | the count of a window is the number of selected positions whose time lies in it, start excluded, end included |
| RateLimit.GreedyRespects | internal/ratelimit/limiter.go:22-33 | whole-run bound: no window, wherever it ends, holds more than `limit` admissions, and a refusal means exactly `limit` admissions in the last window |
| RateLimit.GreedyIsOptimal | internal/ratelimit/limiter.go:22-33 | at every point of every run, no selection that keeps the bound has admitted more requests |
| RateLimit.KthAdmissionNoLater | internal/ratelimit/limiter.go:22-33 | the k-th admission comes no later than any rival's k-th |
| RateLimit.OptimalIffProper | internal/ratelimit/limiter.go:22-33 | optimality holds for all runs if and only if the window or the limit is positive |
| Limiter.TtlCoversWindow | internal/ratelimit/limiter.go:46-48 | the expiry in seconds covers the window in milliseconds, for every duration, negative ones included |
| Limiter.WinMsIsWhole | internal/ratelimit/limiter.go:46-48 | the window sent is the number of whole milliseconds of the duration, cut off towards zero, and no other number is |
| Limiter.TtlSecIsCeiling | internal/ratelimit/limiter.go:46-48 | the expiry sent is the least number of seconds that covers the duration |
| Limiter.SurvivorsCount | internal/ratelimit/limiter.go:24-25 | with distinct members the set's cardinality is the number of admissions in the window |
| Limiter.PrunedIsSurvivors | internal/ratelimit/limiter.go:22-25 | after pruning, the set holds exactly the admissions still in the window, whether or not the key died in between |
| Limiter.ReplayIsGreedy | internal/ratelimit/limiter.go:15-34 | on every run the script gives the greedy policy's verdicts, with or without EXPIRE |
| Limiter.ExpiryUnobservable | internal/ratelimit/limiter.go:28-29 | when scripts run at the time they were called, EXPIRE changes no verdict, whenever the key is reclaimed |
| Limiter.LimiterPromise | internal/ratelimit/limiter.go:15-57 | in nanoseconds, for the scripts that calls with one limit and window run: no window that fits into the duration holds more than the limit, refusals only when the whole milliseconds of the last one are full, optimal against every rival that keeps the bound |
| Overtaking.ClockStepBackBreaksBound | internal/ratelimit/limiter.go:22-33 | for every limit above one and every window of at least 1 ms, a run of the real script in which a call overtaken by 1 ms breaks the bound |
| Overtaking.OvertakenCallsKeepShorterWindows | internal/ratelimit/limiter.go:22-51 | whatever the skew of the two clocks, if calls overtake one another by at most `lag` ms no window shorter by `lag` holds more than `limit` admissions |
| Overtaking.FullWindowIff | internal/ratelimit/limiter.go:22-51 | for every limit, window and lag: the full window is bounded in every run if and only if the window or the limit is empty, or the lag is zero, or the limit is one and the expiry covers the window and the lag |
| Overtaking.ExpiryUnobservableIff | internal/ratelimit/limiter.go:28-29 | with calls overtaken by up to `lag` ms, EXPIRE changes no verdict in any run if and only if the expiry covers the window and the lag |
| Limiter.PassedAreAdmittedOrUnanswered | internal/handler/handler.go:52-60 | in every run, whatever the clocks, the queries that go on are at most the admissions plus those that got no answer |
| Limiter.FailOpenBound | internal/handler/handler.go:52-60 | in every in-time run the queries that go on within any window that fits into the duration exceed the limit by at most those in it that got no answer from the limiter |
| Limiter.SteadyVerdictIsGreedy | internal/ratelimit/limiter.go:44-57 | for calls with one limit and window each verdict is the greedy policy's over the whole milliseconds of the duration |
| Limiter.ConsistentSnoc | internal/ratelimit/limiter.go:13-33 | one more numbered call takes a key from what its calls made of it to what the longer run makes of it |
| Limiter.RateLimiter.EvalAllow | internal/ratelimit/limiter.go:24-33 | fetch, prune, count, add and expire on one user's key; other keys untouched |
| Limiter.RateLimiter.AllowQuery | internal/ratelimit/limiter.go:44-57 | numbers the call, records it in the user's run unless Redis was unreachable, answers its verdict, and reports lost replies as errors |
| ClientHello.ParseEncoded | cmd/sniproxy/main.go:279-351 | round trip: the parser finds the name in every encoded ClientHello, whatever precedes and follows it |
| ClientHello.ParseInverted | cmd/sniproxy/main.go:279-351 | inversion: whatever is accepted factors as version, random, three vectors, complete other extensions, the name extension and an unread remainder |
| ClientHello.AcceptsExactlyEncodings | cmd/sniproxy/main.go:279-351 | acceptance with name n if and only if the input encodes a ClientHello whose first entry is host name n |
| ClientHello.AppendingIsHarmless | cmd/sniproxy/main.go:330-348 | an accepted input keeps its name under any appended bytes |
| ClientHello.OtherBodiesAreHarmless | cmd/sniproxy/main.go:335-348 | replacing other extensions by ones of the same lengths changes neither the result, name or error, of any message nor any length |
| ClientHello.LaterBytesAreHarmless | cmd/sniproxy/main.go:335-348 | the result of any message with a name extension is that extension's own, whatever follows it |
| ClientHello.FramedParse | cmd/sniproxy/main.go:279-333 | the parse of a message is the parse of its extension block, good or bad, whatever surrounds it |
| ClientHello.SkipsOthers | cmd/sniproxy/main.go:335-348 | the walk passes over any list of extensions of other types |
| ClientHello.FindInverted | cmd/sniproxy/main.go:335-350 | an accepted block is a list of other extensions, the name extension and a rest |
| ClientHello.NameEncoded | cmd/sniproxy/main.go:371-404 | the first host name of an encoded name list is returned, whatever other names and slack follow |
| ClientHello.NameInverted | cmd/sniproxy/main.go:371-404 | an accepted name extension encodes the returned name first |
| ClientHello.SmallHelloBytes | cmd/sniproxy/main.go:279-351 | byte by byte, a small ClientHello gives its name |
| Wire.BigEndian | cmd/sniproxy/main.go:353-358 | two- and three-byte numbers are ordered as their bytes are, most significant first |
| SniProxy.ParseSni | cmd/sniproxy/main.go:371-404 | the cursor code computes the name list's parse, error cases included, without reading outside it |
| SniProxy.NextExtension | cmd/sniproxy/main.go:335-348 | one turn of the extension loop decides or moves strictly on within the block |
| SniProxy.FindSni | cmd/sniproxy/main.go:335-350 | the extension loop computes the walk and reads nothing outside the declared block |
| SniProxy.FromExtensions | cmd/sniproxy/main.go:321-350 | the cursor code from the extensions length on agrees with the parse of the rest |
| SniProxy.FromCompression | cmd/sniproxy/main.go:311-319 | the cursor code from the compression methods on agrees with the parse of the rest |
| SniProxy.FromCiphers | cmd/sniproxy/main.go:301-309 | the cursor code from the cipher suites on agrees with the parse of the rest |
| SniProxy.FromSession | cmd/sniproxy/main.go:291-299 | the cursor code from the session ID on agrees with the parse of the rest |
| SniProxy.ExtractSni | cmd/sniproxy/main.go:279-351 | the whole cursor walk computes the parse function, error cases included |
| SniProxy.RecordRoundTrip | cmd/sniproxy/main.go:207-277 | a ClientHello in one record gives its name and the exact record bytes, and leaves the rest of the stream |
| SniProxy.RecordInverted | cmd/sniproxy/main.go:207-277 | an accepted record is a ClientHello with that name in one handshake record |
| SniProxy.SmallRecord | cmd/sniproxy/main.go:207-277 | byte by byte, a handshake record with a small ClientHello gives its name, its raw bytes and the rest of the stream |
| SniProxy.RefusedWhy | cmd/sniproxy/main.go:213-237 | a record is refused for its type, an empty payload, another handshake type, a cut header or a cut body exactly when it has that fault and none before it |
| SniProxy.ReadRecord | cmd/sniproxy/main.go:254-277 | under any chunking exactly the first record is read, or it is not there in full, or the connection failed |
| SniProxy.ParseClientHello | cmd/sniproxy/main.go:207-244 | under any chunking: the name and raw bytes of an accepted first record, its verdict otherwise, or a read failure |
| SniProxy.Transfer | cmd/sniproxy/main.go:187-205 | what is added to the destination is a prefix of what the source had to send: all there was at an end of file, all that was taken after a failed read; other ends only by a read or write that did fail |
| SniProxy.HandleConn | cmd/sniproxy/main.go:118-185 | a connection whose first record is accepted, whose name resolves and whose server is reached is relayed unless a read or write failed before that, and no other is; upstream gets the record and what follows it, the client what upstream sends, each in full up to a read or write that did fail |
| SniProxy.RelayBoth | cmd/sniproxy/main.go:172-205 | both directions, their reads and writes in any order, run to their ends, each accounting for every byte |
| SniProxy.Advance | cmd/sniproxy/main.go:187-205 | one read or one write of a direction on its connections is a step of the relay model and brings the end nearer |
| SniProxy.PumpCarries | cmd/sniproxy/main.go:187-205 | one read or write of a direction loses, repeats and reorders nothing |
| SniProxy.RelayIsTransparent | cmd/sniproxy/main.go:164-205 | in every interleaving of both directions the written bytes are prefixes of those sent, the record first, none missing before a direction ends, nor after it unless a read or write of it failed |
| Net.ReadFull | cmd/sniproxy/main.go:254-269 | exactly n bytes over any number of reads, or an error that says why fewer; a fault only if a read failed |
| Patterns.GeneratePatterns | internal/rule/checker.go:247-263 | the loop builds the domain and its ever shorter wildcards over the last ten labels |
| Patterns.PatternsAreMatches | internal/rule/checker.go:247-263 | a rule is a candidate if and only if it is the domain or "*.t" for a dotted suffix t of at most nine labels |
| Patterns.PatternsShorten | internal/rule/checker.go:247-263 | min(dots, 9) + 1 candidates, the wildcards strictly shortening |
| Patterns.LookupIsMostSpecific | internal/rule/checker.go:186-202 | the lookup returns the exact target, else the longest matching wildcard's, and "" if and only if no matching rule has a target |
| Patterns.FallbackCheck | internal/rule/checker.go:121-129 | 1 if and only if some entry equals the domain or is a dotted suffix of it |
| Patterns.CoversIsLabelSuffix | internal/rule/checker.go:121-129 | an entry covers a domain if and only if its labels are the domain's last labels |
| Patterns.CoversIsPattern | internal/rule/checker.go:121-129 | suffix matching and wildcard candidates agree exactly up to nine labels |
| Patterns.FallbackIsPatterns | internal/rule/checker.go:121-129 | the list blocks what the same entries as stored wildcards would block |
| Patterns.FallbackClosedBelow | internal/rule/checker.go:121-129 | blocking is inherited by every subdomain |
| Patterns.BuiltInList | internal/rule/checker.go:47-55 | which domains the built-in list names |
| Text.NormalizeDropsOneDot | internal/rule/checker.go:69-70 | normalising lower-cases every character and drops one trailing dot |
| Text.LowerIsCase | internal/rule/checker.go:69-70 | the i-th large letter becomes the i-th small one, everything else stays |
| Cache.KeysCollide | internal/rule/checker.go:72-159 | for all user IDs: two keys of any kinds are equal if and only if the same, or one domain spells out the rest of the other key space |
| Cache.ApartIffNoCollisions | internal/rule/checker.go:72-159 | a set of users shares no cache key, between users or kinds, if and only if no key space of theirs starts with another |
| Cache.ColonFreeUsersAreApart | internal/rule/checker.go:72-159 | users without a colon in their ID, other than "redirect", share no key |
| Cache.SweepCovers | internal/rule/checker.go:142-153 | for all user IDs, which keys of which user a sweep covers |
| Cache.ColonFreeSweep | internal/rule/checker.go:142-153 | for colon-free users a sweep covers the own keys, and beyond them exactly: everybody's redirects for the user "redirect", and that user's block keys for domains that start with "u:" for a user u |
| Cache.SweepIsOwn | internal/rule/checker.go:142-153 | among users kept apart a sweep covers exactly its own user's keys, of both kinds |
| Settings.Redis.SMIsMember | internal/rule/checker.go:108-111 | one atomic read answers membership for every candidate |
| Checker.ReadFindsFirstTarget | internal/rule/checker.go:189-202 | a read sequence that does not fail finds the first non-empty target |
| Checker.Checker.constructor | internal/rule/checker.go:33-66 | starts with an empty cache, the built-in list, and Redis disabled unless it answered the ping |
| Checker.Checker.CheckRedis | internal/rule/checker.go:101-119 | true if and only if Redis answers and some candidate is a stored rule |
| Checker.Checker.Check | internal/rule/checker.go:68-99 | hit: the cached verdict, cache unchanged; miss: store or fallback decision, cached for 60 s even when Redis failed |
| Checker.CheckDecides | internal/rule/checker.go:68-99 | on the strings alone: a check that misses blocks if and only if a list entry covers the name, or Redis answers and has a rule that matches it, and caches just that for 60000 ms |
| Checker.VerdictLastsAMinute | internal/rule/checker.go:68-99 | a verdict stands for 60000 ms, whatever becomes of rules and Redis, and no longer |
| Checker.Checker.RedisGetRedirect | internal/rule/checker.go:182-203 | the command loop stops at the first target or fails when the commands do |
| Checker.Checker.GetRedirect | internal/rule/checker.go:155-180 | hit: the cached string with true; miss: the target, cached even when empty, nothing cached on failure |
| Checker.GetDecides | internal/rule/checker.go:155-203 | a redirect lookup that misses answers with the most specific rule's target if any rule has one, and caches the target, or its absence, for 60000 ms |
| Checker.GetFails | internal/rule/checker.go:166-179 | without Redis, or when its commands fail, nothing is answered and nothing cached |
| Checker.ReadFailsIff | internal/rule/checker.go:189-202 | the read fails if and only if its commands run out before the candidates do and before a target |
| Checker.RedirectLastsAMinute | internal/rule/checker.go:155-165 | a cached redirect, the empty one included, is returned as found for 60000 ms and no longer |
| Checker.Checker.SetRedirect | internal/rule/checker.go:205-218 | writes the normalised name and evicts its key only when acknowledged |
| Checker.Checker.RemoveRedirect | internal/rule/checker.go:220-233 | removes the normalised name and evicts its key only when acknowledged |
| Checker.Checker.ClearUserCache | internal/rule/checker.go:142-153 | whatever the iteration order, exactly the visible entries under the user's two prefixes go |
| Checker.RunsKeepTypes | internal/rule/checker.go:72-164 | in every run by any users: block keys of users whose ID is not in the redirect key space hold booleans, and if only such users make block checks, every redirect key holds a string |
| Checker.PanicsIffUnsafe | internal/rule/checker.go:72-78 | some run makes a block check for the user fail its type assertion if and only if Redis is enabled and the ID is "redirect" or starts with "redirect:" |
| Redirects.EditReachesMatchesOnly | internal/rule/checker.go:205-233 | an edit changes lookups of matching domains only |
| Redirects.EditKeepsCoherence | internal/rule/checker.go:205-233 | coherent cached redirects stay coherent under an acknowledged edit of a name that is no wildcard |
| Redirects.EditCoherentIffSafe | internal/rule/checker.go:205-233 | evicting the one key suffices for every coherent cache if and only if the edit leaves unchanged what its wildcard passes on |
| Redirects.UnsafeEditStale | internal/rule/checker.go:216-231 | for every unsafe wildcard edit, a cache it leaves stale |
| Redirects.LostReplyCoherentIff | internal/rule/checker.go:205-233 | an edit whose reply is lost keeps every coherent cache coherent if and only if it is safe and leaves the edited name's own lookup unchanged |
| Redirects.RacingReadIsSomeTarget | internal/rule/checker.go:189-202 | any non-empty answer was the target of a candidate when that candidate was read |
| Redirects.RacingReadsFitIff | internal/rule/checker.go:189-202 | whatever the hash, targets and timing, a lookup overlapping edits of these rules answers as a version of the store that was there meanwhile, if and only if no more specific candidate is edited before a less specific one |
| Redirects.OneEditFits | internal/rule/checker.go:189-202 | a lookup that overlaps one edit of any rule, at any point, answers as before or as after it |
| Redirects.TwoEditsFitIff | internal/rule/checker.go:189-202 | two edits of candidates are harmless under every timing if and only if the second rule is no less specific than the first |
| Rule.Engine.CheckRule | internal/rule/rule.go:20-38 | counts modulo 2^64, then the checker's decision on the once normalised name, or the inline list's |
| Rule.Engine.GetRedirectDomain | internal/rule/rule.go:40-45 | the checker's redirect, or none without a checker |
| Rule.NormalizeTwice | internal/rule/rule.go:23-27 | normalising twice is normalising once if and only if the name does not end in two dots |
| Rule.DoubleDotSplitsDecisions | internal/rule/rule.go:23-36 | for a listed name with two trailing dots the inline list allows what a checker blocks |
| Sync.Worker.HandleMessage | internal/sync/worker.go:78-96 | only a valid clear_cache event evicts, and exactly by its user |
| Sync.Worker.Consume | internal/sync/worker.go:52-76 | messages are handled one after the other, in order, each at its own time |
| Sync.OnlyClearCacheEvicts | internal/sync/message.go:13-29 | of all decoded events only clear_cache for a named user changes the cache; clear_cache and update_rule for a named user are the valid ones |
| Sync.MessagesEvictExactly | internal/sync/message.go:19-29 | after messages handled at any times, a key of any user can be hit if and only if it could before and none was a valid clear_cache event whose sweep covers it |
| Sync.SweepsOwn | internal/sync/worker.go:78-96 | among users kept apart, the events that cover a user's key are exactly the valid clear_cache events for that user |
| Admin.AdminService.PublishClearCache | internal/admin/handlers.go:359-369 | publishes one clear_cache event for the user, if Redis takes it |
| Admin.AdminService.Serve | internal/admin/handlers.go:78-213 | requests lacking a field, the action of a rule or the target of a removal included, change nothing; otherwise write first, publish only after an acknowledged write, succeed even if the publish fails |
| Admin.ChangeTells | internal/admin/handlers.go:84-213 | name by name, what each request adds to, removes from or leaves in its user's rules and redirects |
| Admin.BoundIffComplete | internal/admin/handlers.go:78-82 | a request is accepted for writing exactly if none of its three fields is empty |
| Admin.StoredNameReachableIff | internal/admin/handlers.go:84-213 | some name not ending in two dots matches a stored rule or redirect name if and only if that name has no upper-case letter and no trailing dot |
| Admin.StoredNameTakesEffectIff | internal/admin/handlers.go:84-213 | under exactly that condition a lone stored rule blocks, and a lone stored redirect answers, some such name |
| Admin.OwnNameMatchesIff | internal/admin/handlers.go:84-213 | a stored name matches a query for that very name if and only if it is already normalised |
| Invalidation.RunKeepsAccounts | internal/rule/checker.go:72-203 | in every interleaving each cached and pending answer, block or redirect, is explained by what its commands read from versions current then, or by the fallback list |
| Invalidation.StalenessBounded | internal/rule/checker.go:72-203 | a hit, at most 60 s after its own fill, answers as its own reads explain: the version read, for a redirect the versions its commands saw, or the fallback list |
| Invalidation.QuietUserIsRight | internal/rule/checker.go:72-203 | if a user's settings have not changed for 60 s plus the time the hit's own lookup took, a hit that came from the store agrees with the current store, whatever happened to the events |
| RedirectHits.ExplainedIsRacingRead | internal/rule/checker.go:182-203 | a redirect hit is a read that raced the writes between its first and its last command |
| RedirectHits.RedirectHitFitsVersion | internal/rule/checker.go:182-203 | if the edits that led from version to version while a redirect was read touched no more specific candidate before a less specific one, it answers as one of those versions |
| RedirectHits.RunChains | internal/admin/handlers.go:84-213 | in every run each version of the store comes from the one before by the admin write recorded with it |
| RedirectHits.RedirectHitAfterRun | internal/rule/checker.go:155-203 | after any run, a redirect hit answers as one version that was there between its first and last command, if the user's own redirect writes in between touched no more specific candidate before a less specific one |
| Convergence.SettledUntilWritten | internal/sync/worker.go:78-96 | nothing but a write to the user's settings unsettles a settled user |
| Convergence.ClearSettles | internal/sync/worker.go:90-92 | delivering a clear settles its user unless a lookup still holds an outdated answer |
| Convergence.OutstandingUntilDelivered | internal/admin/handlers.go:96-104 | the event of an acknowledged write is on its way until delivered, or its loss is recorded |
| Convergence.QuiescentConvergence | internal/admin/handlers.go:94-104 | in every interleaving, with no clear on its way, lost or overtaken, every store-read hit and every answer in flight, block or redirect, agrees with the current store |
| Convergence.SettledAfterClear | internal/sync/worker.go:90-92 | after a clear delivered past no outdated lookup, all later hits agree with the store until the user's settings are written |
| Convergence.ClearHoldsIff | internal/rule/checker.go:81-94 | every continuation without a write to the user keeps store-read hits right if and only if no lookup of the user held an outdated answer when the clear was delivered |
| Convergence.LosslessRunsHaveNoSuspects | internal/sync/worker.go:71-96 | runs that lose no clear and deliver none past an outdated lookup leave nobody suspect |
| Convergence.LateFillSurvivesClear | internal/rule/checker.go:81-94 | a lookup overtaken by the clear leaves the old verdict for up to 60 s |
| Lookups.CheckIsItsSteps | internal/rule/checker.go:68-99 | begin, read and finish in a row leave the cache that Check leaves |
| Lookups.GetIsItsSteps | internal/rule/checker.go:155-203 | begin, one step for each command and finish in a row leave the cache that GetRedirect leaves, failed commands included |
| Lookups.ReachesDue | internal/rule/checker.go:182-203 | a lookup left alone from any point on ends with what was due |
| Lookups.ServeIsWriteThenPublish | internal/admin/handlers.go:84-213 | the write step and the publish step in a row change and announce what the admin handler does |
| Handler.Handler.ProcessQuery | internal/handler/handler.go:49-126 | asks the limiter, then empty question, block, redirect, forward, in this order, with the cache threaded through, and submits the log of an answered query |
| Handler.Handler.Ask | internal/handler/handler.go:52-60 | one more call for the user in the limiter's record; its verdict, or going on when the limiter fails or is off |
| Handler.Handler.RespondNow | internal/handler/handler.go:79-93 | block, else redirect, else forward, on the engine's answers; the inline list alone without a checker |
| Handler.ResponsesFit | internal/handler/handler.go:147-223 | on any cache, what the handler answers itself has the query's ID and only records of the asked name and family: sink addresses exactly when it blocks, a valid target when it redirects |
| Handler.CallIsUncached | internal/handler/handler.go:79-93 | one call on a right cache answers as without a cache and keeps the cache right |
| Handler.AnsweredByRules | internal/handler/handler.go:79-93 | an undisturbed call on a right cache: exactly the barred names get the one sink record, else the valid IPv4 target of the most specific redirect answers with its one record, or none for AAAA, else upstream's message or a failure under the query's ID |
| Handler.RefusedOrUnasked | internal/handler/handler.go:52-70 | a query over the limit is refused under its own ID, one without a question left unanswered, both without touching the cache |
| Handler.AnsweredInline | internal/rule/rule.go:30-38 | without a checker the built-in list blocks exactly the names its entries cover, and upstream answers the rest |
| Handler.LogTells | internal/handler/handler.go:104-126 | an answered query submits one log with its user, the name as asked and the word for what was done |
| Handler.CachingIsInvisible | internal/handler/handler.go:79-93 | every call of every sequence answers as the cache-free decision; the logged status is exact |
| Handler.UncheckedIsDisabled | internal/rule/rule.go:20-38 | without a checker a query is answered differently than by a new checker without Redis if and only if its name ends in two dots and the list covers what is left without them |
| Handler.RepeatLoggedAsRedirected | internal/handler/handler.go:86-93 | a repeated unredirected query is forwarded both times but logged as allowed, then as redirected |
| Aggregator.LogAggregator.SubmitLog | internal/analytics/aggregator.go:35-41 | hands over, enqueues or drops, never blocks |
| Aggregator.DroppedIffFull | internal/analytics/aggregator.go:35-41 | a submission is dropped if and only if no worker waits for it and the channel is full |
| Aggregator.LogAggregator.Receive | internal/analytics/aggregator.go:94-98 | appends to the batch and flushes at the threshold |
| Aggregator.LogAggregator.Turn | internal/analytics/aggregator.go:88-106 | one ready choice of the worker: consume, tick or shut down |
| Aggregator.ConsumeTakesOldest | internal/analytics/aggregator.go:94-98 | the worker takes the oldest log of the channel and flushes exactly when that fills the batch |
| Aggregator.TickFlushes | internal/analytics/aggregator.go:90-103 | a tick and the shutdown flush all that has left the channel |
| Aggregator.LogAggregator.FlushNow | internal/analytics/aggregator.go:115-125 | an empty batch is left alone; otherwise counted, emptied and handed on |
| Aggregator.LogAggregator.FlushBatch | internal/analytics/aggregator.go:127-182 | stores the accepted rows when the send succeeds; counts the batch as dropped when ClickHouse fails |
| Aggregator.StoredAreKept | internal/analytics/aggregator.go:150-168 | a sent batch stores exactly the rows at the accepted positions, in the batch's order |
| Aggregator.DroppedBatches | internal/analytics/aggregator.go:127-182 | a flush counts its batch as dropped if and only if ClickHouse refused to begin or to send it |
| Aggregator.AcceptedRunsStoreAll | internal/analytics/aggregator.go:127-182 | in every run in which ClickHouse takes every row, all that is flushed is stored, in order |
| Aggregator.RunKeepsLogs | internal/analytics/aggregator.go:35-125 | in every interleaving flushed batches, batch and channel are the accepted logs in order; submitted = accepted + dropped; stored rows are a subsequence of the flushed |
| Aggregator.ShutdownAccounts | internal/analytics/aggregator.go:90-92 | of every run with a shutdown: submitted = flushed + dropped + left in the channel; without the last term if and only if the channel was empty when the shutdown came and, unless it has no room, nothing was submitted afterwards |
| Aggregator.StoppedChannel | internal/analytics/aggregator.go:35-41 | after a shutdown the channel is empty exactly if it was and has taken no submission since |
| Aggregator.StoppedStaysStopped | internal/analytics/aggregator.go:90-92 | after shutdown nothing more is flushed or leaves the channel |
| Aggregator.ShutdownLeavesLogs | internal/analytics/aggregator.go:90-92 | an accepted log can stay behind |
| Dot.ReadMsg | internal/server/dot.go:128-151 | what is read is the frame the arrived header bytes announce, told apart by whether it unpacks; nothing past it is ever taken, and an end of file leaves nothing |
| Dot.WriteMsg | internal/server/dot.go:186-202 | header and message are written, or a prefix of them |
| Dot.HeaderIsLength | internal/server/dot.go:186-202 | the header is the length of a message that fits, most significant byte first |
| Dot.ReadBackIff | internal/server/dot.go:128-142 | a message is read back and the stream stays in step if and only if the header came in one piece and the message fits sixteen bits |
| Dot.SequenceReadBack | internal/server/dot.go:128-202 | any sequence of fitting messages is read back unchanged |
| UpstreamCache.RespMinTTL | internal/upstream/cache.go:28-47 | the two loops compute the least TTL over answer and authority records, 0 if none is below 2^31-1 |
| UpstreamCache.MinTTLIsMin | internal/upstream/cache.go:28-47 | that number is an element and a lower bound of the TTLs whenever one is below 2^31-1 |
| UpstreamCache.ResponseCache.ResolveCached | internal/upstream/cache.go:49-74 | hit: the stored response; miss: the network's, stored if successful with a positive TTL |
| UpstreamCache.MissAnswersNetwork | internal/upstream/cache.go:59-74 | a miss answers what the network says and stores it exactly if successful with a positive least TTL, for that long |
| UpstreamCache.HitAnswersStored | internal/upstream/cache.go:49-57 | a hit answers what is stored, until the last millisecond of its lifetime and no longer |
| UpstreamCache.SameKeyIff | internal/upstream/cache.go:20-26 | two questions share an entry exactly if their names agree up to case and their types have one mnemonic |
| UpstreamCache.ResponseCache.ClearCache | internal/upstream/cache.go:76-81 | the cache is emptied |
| UpstreamCache.HitsAreFresh | internal/upstream/cache.go:49-74 | in every run a hit was fetched for the same key and outlives none of its records |
| UpstreamCache.HitKeepsFirstId | internal/upstream/cache.go:52-57 | the second of two queries for one name is answered with the first one's ID |
| UpstreamCache.ForeignIff | internal/upstream/cache.go:49-74 | for every call on every cache, if the network echoes IDs: the answer carries a foreign ID if and only if the call hits a response with another ID |
| UpstreamCache.RunForeignIff | internal/upstream/cache.go:49-74 | in every run, if and only if it hits an entry that a call with another ID fetched for the same key |

## Left out

- Limiter.RateLimiter.AllowQuery: the call counter is unbounded; a uint64 wrap would matter only with 2^64 calls in one millisecond. Several processes sharing a Redis are not modelled, as their counters need not give distinct members.
- Overtaking.OvertakenCallsKeepShorterWindows: about runs of the script; AllowQuery itself is one atomic call here, so its record lists calls in the order of their numbers.
- Overtaking.ExpiryUnobservableIff: for windows of at least 1 ms; shorter ones are cut to no window at all.
- Invalidation.QuietUserIsRight: the time between a lookup's first read and its fill has no bound in the code, so the hit's own time appears in the statement.
- Invalidation.StalenessBounded: lookups are for users kept apart; with other user IDs keys collide as KeysCollide says.
- Checker.Checker.ClearUserCache: no other call changes the cache while it iterates; concurrent lookups are interleaved around whole deliveries in the protocol.
- SniProxy.HandleConn: goroutines are modelled by interleaving the reads and writes of the two directions. Deadlines, keep-alives and closing are not modelled; a deadline is a failed read or write.
- SniProxy.ExtractSni: the source walks the message in one function; here each stretch of the walk is a method of its own. Handshakes split over several records are refused, as in the source. Which error a rejected ClientHello gets only reaches the log.
- Dot.ReadMsg: what unpacks as a DNS message is a parameter.
- Handler.Handler.ProcessQuery: metrics and write errors are not modelled; times, client address and type name in the log are parameters.
- Aggregator.LogAggregator.FlushBatch: the counters are unbounded.
- Redis, go-cache, ClickHouse and the DNS library are abstract: maps, sets, a sorted set with a deadline, a map with expiries, byte strings.
- JSON encoding of events: the model starts from decoded events.
- Subscription, reconnection and back-off: they only lose messages, which the protocol allows at any time.
- User extraction from SNI and DoH paths, protocol names, listing endpoints, analytics queries, authentication, certificates, metrics, the dashboard, the DoH server and process start-up.
