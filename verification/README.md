# Gate protocols: model and proofs

gatie controls physical gates: devices report a status, a worker expires silent gates and applies automatic status
transitions, visitors enter PINs, browsers refresh their sessions, custom domains resolve to gates, schedules restrict
access. Most of it is storage and screens. What can go subtly wrong sits in a handful of small protocols over Postgres
rows and Redis keys, and in two small languages. This project models those and proves what they keep.

| module | what it models |
|---|---|
| `Prelude`, `Decimal` | optional values, joining and splitting text, int64 wrap-around, decimal numerals, the order of strings |
| `Payload` | dotted lookups in device payloads, the metadata projection, status rules |
| `GateRow`, `GateTtl` | the gates table, and the worker: expiry, the nested transition loop, its armed timestamps in Redis |
| `GateRuns` | whole runs of reports, configuration changes, failures and worker steps in any interleaving |
| `GateArming` | persistent transitions over runs, and exactly which lists let an armed one keep its promise |
| `GateSilence` | a gate that stopped reporting: expiry against a pending transition, and the status people see |
| `GateValidation` | what a configuration must satisfy before it reaches the worker |
| `RateLimit`, `PinAccess` | fixed-window counters, PIN attempts, use limits, the sessions PINs open |
| `RefreshTokens` | one-time refresh tokens and the sessions that descend from one another through them |
| `RefreshQueue` | the browser's silent refresh with its queue of waiting requests |
| `PollPool` | bounded concurrent webhook polling, and one poll's retries |
| `TenantCache` | the custom-domain cache with its two lifetimes |
| `Schedule`, `ScheduleValidation` | schedule trees: evaluator, meaning, validator, stored schedules |
| `GatePatch` | the dynamic UPDATE compiled from a three-state patch |

Conventions. Code that changes state is a class or a method proved against a function; what the function promises is
then proved as lemmas, and over runs by a step relation. Every call to Redis or the database has an outcome that is a
parameter, so the lemmas hold for every pattern of failures unless they say otherwise; a client that is not configured
is one whose every call fails. Time is an integer: microseconds for gates (the precision of a stored timestamp and of
an armed key), nanoseconds for sessions, PIN attempts and webhook polling, minutes for schedules, seconds for the
request limiter and the domain cache. Delays of transitions wrap like an int64 of nanoseconds. Random tokens are taken to be new each time, and hashing them to be injective.

Where the code does not keep what its names or comments suggest, the exact condition is proved, with an input that
shows the failure:

- Transition keys join statuses with colons, and custom statuses are free text. A key is unambiguous exactly when
  neither status contains a colon (`GateTtl.KeyIsUniqueIffColonFree`). Every firing of every run is justified exactly
  if no two persistent transitions a gate may ever have start from different statuses and read the same once joined
  (`GateRuns.FiringsAreJustifiedIffClashFree`); `GateRuns.ColonsMisfire` is a run in which no call fails and a gate
  that only ever reported one status fires a transition from another.
- Transitions may share a key, also by repeating a (from, to) pair. An armed persistent one keeps its promise in every
  run exactly if all that share its key start from its status, are persistent, and none listed later comes due before
  it and everything listed before it (`GateArming.PromiseIsKeptIffUnrivalled`); otherwise duplicates can starve it
  (`GateArming.DuplicatesStarve`).
- A sweep comes before the check in every tick, so a silent gate's transition can be missed altogether: it fires under
  no ticks at all exactly if its delay exceeds the time to live and the lag between sweep and check together
  (`GateSilence.NeverFiresIffBeyondLag`), and under all regular ticks exactly if its delay and the gap between ticks
  exceed the time to live by no more than a microsecond (`GateSilence.AlwaysFiresIffRoomForATick`).
- A use limit does not hold for uses whose script call fails: they are let in, one more for each
  (`PinAccess.UsesAreBounded`, reached by `PinAccess.FailedCallsAreUncounted`).
- A delay is honoured exactly up to 9 223 372 036 seconds (`GateTtl.AfterMicrosIsExactUpToTheLimit`).
- A PIN beyond the first hundred of its gate is never recognised (`PinAccess.PinIsSeenIffOnFirstPage`).
- A session duration survives a refresh exactly when it is endless or whole seconds; a fraction of one second becomes
  endless (`RefreshTokens.DurationSurvivesIffWholeSeconds`).
- A cached answer can outlive its five minutes or thirty seconds by as long as storing it lagged behind reading the
  row, less one: with lag bounded by L seconds, all answers are recent within a slack s exactly if s >= L - 1
  (`TenantCache.AnswersAreRecentIffSlackCoversLag`).
- Times of day are read more leniently than HH:MM; exactly the texts of that form print back as they were
  (`Schedule.AcceptedTimesPrintBack`, `Schedule.SignsAndShortTimesAreAccepted`).

## Model

| member | source | states |
|---|---|---|
| `GateTtl.AfterMicrosIsExactUpToTheLimit` | internal/service/gate_ttl.go:93 | a positive delay is honoured exactly up to the int64 limit of nanoseconds; any longer one comes out too short |
| `GateTtl.KeysOfGatesAreApart` | internal/service/gate_ttl.go:71-73 | keys of different gates never meet; keys of one gate meet only if their status halves read the same |
| `GateTtl.KeyIsUniqueIffColonFree` | internal/service/gate_ttl.go:71-73 | a key identifies its pair of statuses if and only if neither contains a colon |
| `GateTtl.DistinctPairsGiveDistinctKeys` | internal/service/gate_ttl.go:71-73 | distinct colon-free pairs have distinct keys |
| `GateTtl.ScanTakesTheFirst` | internal/service/gate_ttl.go:91-145 | for every list and under any failures, the pass over a gate applies the lowest-index transition that is due at its turn and written, no other; every key ends as the turns under it leave it, and keys of no transition up to that one are untouched |
| `GateTtl.OwnKeyActsAlone` | internal/service/gate_ttl.go:91-145 | a transition that shares its key with no other reads it as stored and leaves it as its own state demands |
| `GateTtl.ScanStaysOnOwnKeys` | internal/service/gate_ttl.go:91-145 | a pass depends on and changes only keys under its own gate |
| `GateTtl.CheckAllIsPerGate` | internal/service/gate_ttl.go:86-146 | gates do not interfere: each listed gate ends as if scanned alone, all others are untouched |
| `GateTtl.FiringWritesTheTarget` | internal/service/gate_ttl.go:128 | what a firing writes, wherever a check or a round is spoken of: the target status, the listed metadata, the time; no configuration and no other gate |
| `GateTtl.GateTtlWorker.ProcessGateStatus` | internal/service/gate_status.go:26-51 | a report writes the status of the first rule whose key is present and whose comparison holds, otherwise the reported one, with its metadata and its time; configuration and other gates stay, and nothing changes if the write fails |
| `GateTtl.GateTtlWorker.MarkExpired` | internal/repository/postgres/gate.go:434-463 | returned and made unresponsive are exactly the rows whose last report is more than their own time to live ago, or the default if they have none, and whose status is none of the three exempt words; all else stays |
| `GateTtl.GateTtlWorker.ListTransitionCandidates` | internal/repository/postgres/gate.go:485-505 | every row with transitions and a last report, once, as stored |
| `GateTtl.GateTtlWorker.CheckGate` | internal/service/gate_ttl.go:91-145 | the inner loop leaves exactly the keys of the pass, and writes the fired transition's target, the metadata as listed and the time of the write, or nothing |
| `GateTtl.GateTtlWorker.CheckTransitions` | internal/service/gate_ttl.go:75-147 | whatever the listing order, every candidate ends as if scanned alone; the rest keep rows and keys |
| `GateTtl.RoundsWriteWhatTheyFire` | internal/service/gate_ttl.go:38-40 | what a round leaves of a gate with each of its two calls failing or not: the target of what fired on the swept gate, the sweep alone, the check alone, or nothing |
| `GateTtl.GateTtlWorker.RunOnce` | internal/service/gate_ttl.go:38-40 | a worker round is, for each gate, the sweep followed by the check on what the sweep left; if either fails the other still happens |
| `GateRuns.StepKeepsInv` | internal/service/gate_ttl.go:91-128 | every step keeps each armed key tied to a past sighting of its gate, in a status that a persistent transition under the key starts from, at the stored instant |
| `GateRuns.FiringIsJustified` | internal/service/gate_ttl.go:91-128 | over every run of a clash-free family of lists, a transition fires only if a check up to then read the gate in From, and no earlier than AfterSeconds after it was last seen there |
| `GateRuns.ClashMisfires` | internal/service/gate_ttl.go:91-128 | for any two clashing transitions a gate may have, a run from the start fires one whose From no check ever saw |
| `GateRuns.FiringsAreJustifiedIffClashFree` | internal/service/gate_ttl.go:91-128 | all firings of all runs are justified if and only if the family of lists is clash-free |
| `GateRuns.ColonsMisfire` | internal/service/gate_ttl.go:71-73 | a run from the start without a failing call, in which a gate only ever seen in "a" fires a transition from "a:b" |
| `GateArming.UnrivalledIsPunctual` | internal/service/gate_ttl.go:91-128 | in a pass that fires nothing listed earlier, an unrivalled armed transition whose own calls succeed when due fires exactly when due, and its key stays until then and is gone afterwards |
| `GateArming.PunctualIffAnswered` | internal/service/gate_ttl.go:104-132 | for a transition with a key of its own, that holds if and only if, once due, its key is read and deleted and its status written |
| `GateArming.ArmedTransitionFiresOnce` | internal/service/gate_ttl.go:96-126 | an armed unrivalled transition survives any other statuses: it fires at the first check at or after its deadline, exactly once, and its key is then gone |
| `GateArming.PromiseIsKeptIffUnrivalled` | internal/service/gate_ttl.go:91-126 | every undisturbed run keeps that promise if and only if the transition is unrivalled |
| `GateArming.SightingArms` | internal/service/gate_ttl.go:96-122 | for every list, a check that finds the gate in From before the deadline arms the transition with the time last seen, unless, and only unless, another one under its key fires in the same pass or deletes the key after it was last set |
| `GateArming.NothingCancelsAmongColonFree` | internal/service/gate_ttl.go:96-102 | among statuses without a colon nothing deletes what a sighting sets |
| `GateArming.GoneTimersNeverFire` | internal/service/gate_ttl.go:104-113 | a transition whose key is not stored never fires while the gate stays out of every status that could arm it |
| `GateArming.DuplicatesStarve` | internal/service/gate_ttl.go:91-126 | for every rivalled transition among duplicates of its pair: a run arms it, one fair check before its deadline takes the timer away, and it never fires until the gate is back in From |
| `GateRuns.ChecksAreCheckAll` | internal/service/gate_ttl.go:86-146 | left undisturbed, the run's single checks are the worker's nested loop |
| `GateRuns.MarksAtMostUpdates` | internal/repository/postgres/gate.go:418-443 | over every run a gate is marked unresponsive at most as often as its status was updated |
| `GateSilence.SilentGateFiresInTheWindow` | internal/service/gate_ttl.go:38-40 | the transition of a silent gate fires in the first tick between its deadline and the end of the time to live, and in none if there is no such tick |
| `GateSilence.LongDelayNeverFires` | internal/service/gate_ttl.go:116-122 | a delay beyond the time to live plus the lag of the check is never honoured, whichever writes fail |
| `GateSilence.NeverFiresIffBeyondLag` | internal/service/gate_ttl.go:38-40 | a delay is honoured under no ticks of that lag if and only if it exceeds time to live and lag together |
| `GateSilence.ShortDelayAlwaysFires` | internal/service/gate_ttl.go:116-122 | AfterSeconds plus one tick gap within the time to live is always honoured, if ticks go on past the delay |
| `GateSilence.AlwaysFiresIffRoomForATick` | internal/service/gate_ttl.go:38-40 | a delay is honoured under all regular ticks that go on past it if and only if delay and gap exceed the time to live by at most a microsecond |
| `GateSilence.SilentGateDisplay` | internal/model/gate.go:317-325 | what a silent gate shows at any instant: offline after five minutes, else unresponsive once swept after its time to live, else as stored |
| `GateSilence.DisplayOnlyMovesOn` | internal/model/gate.go:317-325 | with regular sweeps the display goes stored, unresponsive, offline, each within its time, and never back |
| `GateRow.DisplayFollowsTheLastReport` | internal/model/gate.go:317-325 | unknown before the first report, offline more than five minutes after the last, as stored until then |
| `GateValidation.ValidateStatusTransitions` | internal/handler/gate_validation.go:106-131 | accepted exactly if every entry has a positive delay and two different statuses, each built in (open, closed, unavailable) or custom; otherwise the first bad entry and its first fault |
| `GateValidation.ValidateCustomStatuses` | internal/handler/gate_validation.go:163-184 | accepted exactly if all names are non-blank, not built in and pairwise different; otherwise the first bad entry and which of the three it fails first |
| `GateValidation.BlankIsWhiteSpace` | internal/handler/gate_validation.go:172 | blank is nothing but white space |
| `Payload.GetNestedValue` | internal/model/gate.go:93-115 | the loop answers the flat key if there is one, otherwise the value at the dotted path |
| `Payload.LookupsFollowThePath` | internal/model/gate.go:89-115 | a key of the payload stands for its value, any other with dots for exactly what a chain of objects along its path ends in, and one without dots for nothing |
| `Payload.SplitDots` | internal/model/gate.go:102 | dot-free parts that join back to the key |
| `Payload.ExtractMeta` | internal/model/payload_mapping.go:88-101 | the loop builds the projection: exactly the configured keys that resolve, each flat under its own name |
| `Payload.ProjectionKeepsLookups` | internal/model/payload_mapping.go:90-101 | a configured key looked up in the metadata answers exactly as in the payload, found or not, flat or nested |
| `Payload.ProjectionIsIdempotent` | internal/model/payload_mapping.go:90-101 | projecting metadata again changes nothing |
| `Payload.OperatorsAreATrichotomy` | internal/model/gate.go:117-174 | on numbers exactly one of lt, eq, gt holds unless a NaN is involved; ne, lte, gte are their combinations |
| `Payload.OperatorsCompareReals` | internal/model/gate.go:155-173 | on finite numbers, given or read from text, each of the six operators is the comparison of reals it is named after, and no other word matches |
| `Payload.InfinitiesLieOutside` | internal/model/gate.go:155-173 | infinities lie beyond every finite number; a NaN is unequal to everything and in no order |
| `Payload.OtherValuesCompareAsText` | internal/model/gate.go:130-158 | other values compare only for equality of text, and a number matches no threshold that is none |
| `Payload.EvaluateStatusRules` | internal/model/gate.go:76-87 | the status of the first rule whose key is present and whose comparison holds, and none exactly if there is no such rule |
| `Payload.RulesAgreeOnMetadata` | internal/model/gate.go:76-115 | rules over configured keys decide the same on the metadata as on the payload |
| `Payload.MetadataStandsForThePayload` | internal/model/payload_mapping.go:67-101 | with its status field configured, a report ends in the same status, or the same mapping error, whether the payload or its stored metadata is processed |
| `Payload.MappingsTranslateTheField` | internal/model/payload_mapping.go:67-86 | the field's text, translated if there are translations; an error exactly for another format, a missing field or an unknown value |
| `RateLimit.SlidingBound` | internal/middleware/ratelimit.go:22-35 | for every sequence of arrivals at a key, at most twice the limit is admitted in any interval of one window length |
| `RateLimit.SlidingBoundIsReached` | internal/middleware/ratelimit.go:22-35 | twice the limit does occur |
| `RateLimit.WindowIsExact` | internal/middleware/ratelimit.go:22-35 | within one window exactly the first maxAttempts arrivals are admitted |
| `RateLimit.KeysAreIndependent` | internal/middleware/ratelimit.go:20-24 | a key that is never dropped depends on its own arrivals only |
| `RateLimit.LimiterBound` | internal/middleware/ratelimit.go:20-35 | the sliding bound for one key among arrivals at any keys, lost replies included |
| `RateLimit.RateLimiter.Handle` | internal/middleware/ratelimit.go:15-38 | the address's counter goes up by one in the open window, or starts at one in a window opened now; passed exactly with a reply and a count within the limit; other counters stay |
| `RateLimit.LimiterKeysAreApart` | internal/middleware/ratelimit.go:20 | every address has a counter of its own for every use of the limiter |
| `RateLimit.RequestsAreCountedOnce` | internal/middleware/ratelimit.go:22-31 | an executed request counts the same with or without its reply, one not executed not at all, and none without a reply is admitted |
| `PinAccess.CountersAreApart` | internal/service/gate_pin.go:265-266 | an address's counter is never a gate's |
| `PinAccess.CountersAreTheirOwn` | internal/service/gate_pin.go:265-266 | every gate has a counter of its own, and every address one at every gate |
| `PinAccess.GuessesAreBounded` | internal/service/gate_pin.go:265-278 | whatever addresses are used and cleared, at most twice the gate's limit of attempts reach PIN comparison in any quarter of an hour |
| `PinAccess.ComparisonsAreCounted` | internal/service/gate_pin.go:265-278 | what that count is: each attempt at the gate within the interval that both limits let through, once |
| `PinAccess.PinIsSeenIffOnFirstPage` | internal/service/gate_pin.go:280-298 | the first matching PIN is found if and only if it is on the page asked for, which never exceeds a hundred |
| `PinAccess.JudgementMeans` | internal/service/gate_pin.go:280-315 | a compared attempt succeeds exactly with the first matching PIN of the first hundred, if it has not expired and its schedule does not deny; otherwise why not |
| `PinAccess.CounterIsGrants` | internal/service/gate_pin.go:185-202 | in any order of calls the use counter equals the uses granted, and the n-th grant is numbered n, within the limit then in force |
| `PinAccess.FixedLimitIsExact` | internal/service/gate_pin.go:185-202 | a fixed limit grants exactly the first so many uses |
| `PinAccess.GrantsAreBounded` | internal/service/gate_pin.go:185-202 | lost replies and removals included, the script grants a fixed limit at most once per life of the counter |
| `PinAccess.RemovalStartsAfresh` | internal/service/gate_pin.go:153-159 | once the counter went with its PIN, uses are granted as if there had been none |
| `PinAccess.UsesAreBounded` | internal/service/gate_pin.go:185-202 | the uses let in exceed that by at most one for each failed script call |
| `PinAccess.FailedCallsAreUncounted` | internal/service/gate_pin.go:196-201 | where failed script calls did not run, exactly the limit and one use for each of them is let in |
| `PinAccess.WithoutManageMeans` | internal/service/gate_pin.go:215-220 | the filter keeps every permission but gate:manage |
| `PinAccess.PinSessionsNeverManage` | internal/service/gate_pin.go:211-222 | no session a PIN opens carries gate:manage |
| `PinAccess.NoPinTokenEverManages` | internal/service/gate_pin.go:211-222 | over every run whose PIN sessions are opened so, no token, first or refreshed, stands for a session with gate:manage |
| `PinAccess.OpenedSessionsLast` | internal/service/gate_pin.go:204-209 | an opened session can be refreshed for the PIN's seconds, for ever if they are zero, for a week if there are none |
| `PinAccess.GatePinService.ValidatePin` | internal/service/gate_pin.go:264-316 | both counters are counted, and compared to their limits; then the outcome is the first match of the first hundred unless expired or denied, or exactly why not; success clears the address's counter only |
| `PinAccess.GatePinService.UseScript` | internal/service/gate_pin.go:187-195 | one more use, or none and answer zero at the limit |
| `PinAccess.GatePinService.FilterPermissions` | internal/service/gate_pin.go:211-220 | exactly the PIN's permissions, or opening if it lists none, but for gate:manage |
| `PinAccess.GatePinService.Open` | internal/service/gate_pin.go:179-229 | what each outcome of validation and of the use script does to the counters and the stored sessions |
| `PinAccess.GatePinService.Unlock` | internal/service/gate_pin.go:170-176 | succeeds exactly on a valid PIN, with the counters of the attempt, and never touches the use counter |
| `PinAccess.GatePinService.Delete` | internal/service/gate_pin.go:153-159 | a PIN's uses start from zero again exactly if its row was deleted and its counter too; no other counter changes |
| `PinAccess.TriggerWithSession` | internal/service/gate_pin.go:232-260 | allowed exactly if the PIN session carries the permission the action needs |
| `RefreshTokens.DecodeEncode` | internal/service/auth.go:186-239 | a stored session is read back as the same subject, gate and permissions, its duration cut to whole seconds |
| `RefreshTokens.DurationSurvivesIffWholeSeconds` | internal/service/auth.go:390-406 | a duration survives a refresh if and only if it is endless or whole seconds; below one second it becomes endless |
| `RefreshTokens.StoredDurationsAreRead` | internal/service/auth.go:390-406 | whole seconds of what is stored, and a week where that is missing, negative or no number |
| `RefreshTokens.OtherPayloadsAreRefused` | internal/service/auth.go:186-239 | exactly member and PIN-session payloads with well-formed identifiers are understood |
| `RefreshTokens.OnlyTextsAreRead` | internal/service/auth.go:227-234 | of a stored list of permissions exactly the texts are read |
| `RefreshTokens.TokensLastTheirDuration` | internal/service/auth.go:306 | a token can be redeemed until its duration has passed, and for ever if that is not positive |
| `RefreshTokens.RedemptionsMayFailAnyTime` | internal/service/auth.go:186-239 | which runs there are: any token may be redeemed or revoked at any time, a lost reply consumes the token exactly if the call was carried out, and no session follows it or a redemption given up |
| `RefreshTokens.OneTokenPerSession` | internal/service/auth.go:179-244 | under any interleaving, a session's live tokens and redemptions under way together never exceed one |
| `RefreshTokens.RedeemedAtMostOnce` | internal/service/auth.go:180-183 | each token is redeemed at most once |
| `RefreshTokens.SessionIsKept` | internal/service/auth.go:179-244 | after any number of refreshes a token still stands for the session it descends from |
| `RefreshTokens.RefreshNeverAddsManagement` | internal/service/auth.go:227-239 | if no session starts with gate:manage, no refresh ever yields it |
| `RefreshTokens.AuthService.Issue` | internal/service/auth.go:359-387 | nothing is stored if signing fails; otherwise the token, with the session's payload and a deadline exactly if its duration is positive; other tokens stay |
| `RefreshTokens.AuthService.Refresh` | internal/service/auth.go:179-244 | a readable token is gone whatever follows and its successor is stored for the same session; after a lost reply nothing is issued, and the token is gone if it was consumed |
| `RefreshTokens.AuthService.RevokeRefreshToken` | internal/service/auth.go:247-249 | unless the deletion fails the token is redeemable at no time; every other token stays redeemable exactly when it was |
| `RefreshTokens.RevokedIsNeverRedeemed` | internal/service/auth.go:247-249 | in every run, once a token's deletion has been carried out it is never live or redeemed again |
| `RefreshTokens.RefreshIsRedeemThenReissue` | internal/service/auth.go:179-244 | an undisturbed refresh is a redemption followed by a reissue |
| `RefreshQueue.Interceptor.DrainQueue` | frontend/src/lib/api.ts:14-17 | without an error every waiting request is released unanswered, with one each is settled with it; all others stay, and the queue is empty |
| `RefreshQueue.Interceptor.OnResponse` | frontend/src/lib/api.ts:19-36 | success settles with success; a first 401 outside the auth endpoints queues, or leads and is marked if no refresh is under way; anything else settles with the error |
| `RefreshQueue.Interceptor.OnRefreshDone` | frontend/src/lib/api.ts:38-50 | a successful refresh releases the waiting and re-sends its leader, a failed one settles them all with its error; the flag is cleared |
| `RefreshQueue.StepKeepsInv` | frontend/src/lib/api.ts:11-50 | every step keeps: one leader at most, the flag means one leads, queued requests are exactly the queue, answers are counted |
| `RefreshQueue.RefreshIsSingleFlight` | frontend/src/lib/api.ts:11-50 | for any requests and answers: one refresh in flight, a non-empty queue implies one, nobody settled twice, refreshes at most requests |
| `RefreshQueue.EveryAnswerHasItsReason` | frontend/src/lib/api.ts:14-50 | in every run a request is answered with success exactly by its own success, and with an error exactly by its own unretriable answer or the failure of the refresh it led or waited for; answers are final |
| `RefreshQueue.SuccessReleasesTheQueue` | frontend/src/lib/api.ts:38-41 | in every run a successful refresh, and nothing else, releases requests, exactly the waiting ones, unmarked |
| `RefreshQueue.StepDescends` | frontend/src/lib/api.ts:29-50 | every step lowers a lexicographic measure although queued requests are re-sent unmarked |
| `RefreshQueue.EveryRunEnds` | frontend/src/lib/api.ts:11-50 | runs are bounded, and one that cannot go on has settled every request exactly once |
| `RefreshQueue.SomethingCanHappen` | frontend/src/lib/api.ts:11-50 | as long as some request is not settled, some step is possible |
| `PollPool.StepKeepsInv` | internal/service/gate_webhook_worker.go:94-114 | every step keeps slots and group counted, and each gate's polls at what its phase implies |
| `PollPool.DueWhenTheIntervalHasPassed` | internal/service/gate_webhook_worker.go:119-135 | due exactly if never seen or the configured whole seconds, or else a minute, have passed |
| `PollPool.RoundsAreAboutDueGates` | internal/service/gate_webhook_worker.go:97-101 | a round starts with exactly the listed gates that are due, none polled |
| `PollPool.AtMostTenPolls` | internal/service/gate_webhook_worker.go:94-111 | in every interleaving at most ten polls hold a slot |
| `PollPool.RoundsDoNotOverlap` | internal/service/gate_webhook_worker.go:73-115 | a round returns only when each due gate was polled exactly once and no other, with nothing left running |
| `PollPool.RoundNeverStalls` | internal/service/gate_webhook_worker.go:94-114 | until a round returns some step is enabled |
| `PollPool.RoundDescends` | internal/service/gate_webhook_worker.go:97-114 | every step of a round brings its return closer |
| `PollPool.FetchWithRetry` | internal/service/gate_webhook_worker.go:190-209 | the first success within maxRetries + 1 attempts, or which failure, with every earlier attempt failed |
| `TenantCache.AnswersAreRecent` | internal/middleware/tenant.go:51-85 | every answer served without a database error is the database's own at some instant within the answer's lifetime and the fill lag less one |
| `TenantCache.StableRowsAreServedExactly` | internal/middleware/tenant.go:51-85 | where the row has not changed for that long, cached and direct answers coincide |
| `TenantCache.SlowFillOutlivesItsLifetime` | internal/middleware/tenant.go:64-78 | for every lag, a run serves a tenant that the database has not had within the lifetime and any smaller slack |
| `TenantCache.AnswersAreRecentIffSlackCoversLag` | internal/middleware/tenant.go:51-85 | all answers of all runs are recent within a slack if and only if it is at least the lag less one |
| `TenantCache.RequestIsItsSteps` | internal/middleware/tenant.go:43-86 | a request no other one interrupts takes, step by step, exactly the course of the middleware |
| `TenantCache.OnlyVerifiedDomainsAreTenants` | internal/middleware/tenant.go:67-74 | the database answers with a gate exactly if it has a verified row for it |
| `TenantCache.TenantResolver.Resolve` | internal/middleware/tenant.go:43-86 | an entry before its deadline is served as it is; otherwise a verified row's gate is served and cached for five minutes, none is served and cached for thirty seconds, and an error serves none and caches nothing |
| `Schedule.ClockReads` | internal/service/schedule.go:234-254 | the time of day and the weekday of a clock reading, day by day from a Thursday |
| `Schedule.TimesReadBack` | internal/service/schedule.go:307-318 | reading a printed HH:MM gives the time back |
| `Schedule.AcceptedTimesPrintBack` | internal/service/schedule.go:307-318 | of the accepted texts exactly those written HH:MM print back as they were |
| `Schedule.SignsAndShortTimesAreAccepted` | internal/service/schedule.go:307-318 | "+9:-0" is read as nine o'clock |
| `Schedule.MatchesTimeRange` | internal/service/schedule.go:232-261 | the loop over days and the two branches decide the time range |
| `Schedule.TimesAreOpenArcs` | internal/service/schedule.go:254-260 | a time range is the half-open arc modulo 1440 |
| `Schedule.RangesAreClosedArcs` | internal/service/schedule.go:263-305 | weekday, day and month ranges are closed arcs modulo 7, 31 and 12 |
| `Schedule.FormattedDatesAreRead` | internal/service/schedule.go:275-281 | every date of those years, formatted as the clock does, is in date form and stands for itself |
| `Schedule.DateTextsCompareAsDates` | internal/service/schedule.go:275-281 | zero-padded dates compare as text the way they do on the calendar, years 0 to 9999 (full-date, section 5.6 of RFC 3339) |
| `Schedule.DatesAreComparedByTheCalendar` | internal/service/schedule.go:275-281 | any bound of the form YYYY-MM-DD is compared with today by the calendar |
| `Schedule.DateRangesMeanDates` | internal/service/schedule.go:275-281 | a range between two dates holds exactly from the first to the last |
| `Schedule.SwappedRangeIsTheNegation` | internal/service/schedule.go:232-261 | swapping the ends negates a time range exactly when the ends differ and the day is listed or none is |
| `Schedule.RulesMeanWhatTheySay` | internal/service/schedule.go:216-305 | a well-formed rule matches exactly when it holds as documented: arcs of the day, week, month and year, and calendar spans between dates |
| `Schedule.EvaluationIsMeaning` | internal/service/schedule.go:101-135 | evaluating a well-formed tree is the standard meaning of and, or, not over its rules |
| `Schedule.DeMorgan` | internal/service/schedule.go:101-135 | De Morgan's laws for the evaluator, on child lists of any length and any children |
| `Schedule.WeeklyTreesRepeat` | internal/service/schedule.go:101-135 | a tree of time and weekday ranges decides the same any whole number of weeks apart |
| `Schedule.CheckedIsEval` | internal/service/schedule.go:101-135 | the evaluator that reports fall-through branches agrees with the evaluator wherever it reaches none |
| `Schedule.MalformedRulesAreReported` | internal/service/schedule.go:216-318 | that evaluator reports exactly the rules without a known type or their bounds, and unreadable times where they would be compared |
| `Schedule.NeverFallsThrough` | internal/service/schedule.go:216-318 | on a well-formed tree no branch that denies a malformed one is ever reached |
| `Schedule.MalformedNodesDeny` | internal/service/schedule.go:101-135 | unknown operators, missing rules, negations of none or several, and rules without type, bounds or readable times deny |
| `ScheduleValidation.RuleIsAcceptedIffWellFormed` | internal/service/schedule.go:164-214 | a rule is accepted if and only if it is well-formed |
| `ScheduleValidation.RuleProblemsAreAsNamed` | internal/service/schedule.go:164-214 | each refusal of a rule names something that is wrong with it |
| `ScheduleValidation.PathsReadFromTheRoot` | internal/service/schedule.go:149-155 | a path is written child by child from the root |
| `ScheduleValidation.AcceptedIffWellFormed` | internal/service/schedule.go:137-162 | a tree is accepted if and only if it is well-formed |
| `ScheduleValidation.ParentsAndEarlierChildrenFirst` | internal/service/schedule.go:137-162 | document order puts a node before its children and an earlier child's whole subtree before a later one's |
| `ScheduleValidation.RefusalIsTheFirstProblem` | internal/service/schedule.go:137-162 | a refusal names the first faulty node in document order, and its fault |
| `ScheduleValidation.ScheduleService.Save` | internal/service/schedule.go:26-84 | nothing malformed is ever stored, and a refusal says where and why |
| `ScheduleValidation.ScheduleService.Check` | internal/service/schedule.go:91-99 | a stored schedule allows access exactly when it has no expression or its expression holds |
| `GatePatch.BuildSets` | internal/repository/postgres/gate.go:207-270 | the nine conditional blocks produce the compiled list, one placeholder per argument, and every text but those of the name and the time to live is cast to jsonb |
| `GatePatch.CompileReadsBack` | internal/repository/postgres/gate.go:207-270 | the generated texts read back as the assignments, each naming the placeholder of its own argument |
| `GatePatch.JoinedListSplits` | internal/repository/postgres/gate.go:279 | the joined SET list falls apart into the same assignments |
| `GatePatch.NumberedCarriesOut` | internal/repository/postgres/gate.go:206-281 | a list that assigns each column at most once, placeholder k to argument k, is accepted and replaces just those columns |
| `GatePatch.CompileIsPatched` | internal/repository/postgres/gate.go:206-281 | executing the generated text applies the three-state patch: sent values replace, null clears, the rest stays |
| `GatePatch.PatchedObeys` | internal/repository/postgres/gate.go:211-270 | column by column: not sent keeps the value, null clears, a value is stored as text, number, document or list; no other column changes |
| `GatePatch.BuildUpdate` | internal/repository/postgres/gate.go:206-281 | the same for the builder, for every row of the table |
| `GatePatch.PatchesCompose` | internal/repository/postgres/gate.go:206-281 | one patch after another is the merged patch |
| `GatePatch.GateRepository.Update` | internal/repository/postgres/gate.go:206-293 | missing gate, failing database, or a row stored and returned that keeps each column not sent, clears it on null and holds the value sent otherwise; other gates stay |

## Left out

- HTTP, routing, configuration, the command-line tools and the user interface.
- JWT signing, bcrypt, SHA-256 and random generation: verification is a predicate parameter, tokens are new each time.
- MQTT, OIDC, DNS and outbound HTTP: a device's report and the outcome of a fetch are inputs. A mapping arrives parsed.
- Publishing status events, audit records and triggering the gate: no model state depends on them.
- Time-outs of the worker's contexts, except as failing calls.
- The clock inside one pass: the worker's own writes take any instant the environment gives them; the offline limit and deadlines are compared in whole microseconds.
- Floating point: session durations and polling intervals are reals; status rules compare an abstract ordered type with NaN and infinities. `strconv.ParseFloat` and the `%v` format are parameters.
- JSON encoding and SQL beyond SET lists: rows are records, jsonb columns are values; a statement's WHERE and RETURNING parts are its arguments and its result.
- The remaining validators (action configurations, success codes, status rules, the bounds of the time to live): independent checks on single fields, without state.
- Simple create, read, list and delete operations, pagination and permission tables.
- Wall-clock changes: a schedule reads a clock of fixed offset, and date and minute of a reading are independent, which only makes the statements stronger.
- `GateRuns.FiringsAreJustifiedIffClashFree`: its misfiring run lets deletions and writes fail, which the source tolerates; with every call succeeding some clashes cannot misfire.
- `GateArming.ArmedTransitionFiresOnce`: at the checks of this gate the list stays as it is, no earlier-listed transition fires, and what has come due under the key is read, deleted and written. A failing status write after the key's deletion disarms the transition (`GateArming.PunctualIffAnswered`).
- `GateArming.PromiseIsKeptIffUnrivalled`: delays of at least one second, which validation asks for, as long as they do not overflow an int64 of nanoseconds.
- `GateTtl.GateTtlWorker.CheckGate`: a failed call has no effect; a status write that is carried out although its reply is lost is not modelled.
- `TenantCache.AnswersAreRecent`: the time between reading the row and storing the answer is a parameter; the source does not bound it.
- `GateSilence.AlwaysFiresIffRoomForATick`: delays that do not overflow; a tick's sweep may come as early as the tick before it, and lag is bounded only by the gap.
- `GateSilence.ShortDelayAlwaysFires`: about ticks from the last report on, one after the other, whose transition writes succeed.
- `PinAccess.GuessesAreBounded`: gate ids are UUIDs (no colon, not the word that marks the per-gate counters).
- `PinAccess.GatePinService.Unlock`: the use limit does not bind it, as in the source; triggering is left out.
- `PinAccess.GatePinService.Open`: the PIN row may change between reading its limit and running the script; the limit of each call is that call's own.
- `GateValidation.ValidateCustomStatuses`: white space is ASCII white space.
- `Schedule.DateTextsCompareAsDates`: years beyond 9999 are formatted with more digits and do not compare as dates.
- `Schedule.RulesMeanWhatTheySay`: a date range is validated only as two texts in order; for a bound that is not of the form YYYY-MM-DD, and in years beyond 9999, it means the order of texts.
- `ScheduleValidation.ScheduleService.Save`: creation and update in one method; ownership by a member and failing storage are not modelled.
- `PollPool.RoundsDoNotOverlap`: goroutines are steps of a relation on values; channel and wait group are counters.
- `RefreshTokens.OneTokenPerSession`: Redis reads a key as absent from its deadline on; the stored payload is modelled as decoded JSON.
