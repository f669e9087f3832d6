# Atlas protocols, calendars and ledgers in Dafny

This project models the parts of the Atlas backend, and of its video-gate Worker, in which
state, time and concurrency interact, and proves what those parts promise. `dafny verify
dfyconfig.toml` checks all of it. Everything here is proved by the verifier; nothing of the
original program was executed.

Each topic has a file with the model of the code and, where runs matter, a second file with
the results about whole runs:

| files | what they are about |
|---|---|
| `DecisionCache`, `Gate`, `GateBound` | the video gate's bounded decision cache, its shared calls to Atlas, and how long a revoked token may still be allowed |
| `EdgePurge`, `EdgePurgeRuns` | the edge purge queue: debounce, spacing, second pass, retry after a 429 |
| `Avatar`, `AvatarRuns` | concurrent uploads and removals of one user's photo over object storage and a row |
| `Decimal`, `Calendar`, `GrowthTime`, `CairoDay` | dates as day numbers, Saturday weeks, month arithmetic, the first instant of a Cairo day |
| `ThemeRetirement`, `ThemeRetirementRuns` | dry run, apply and rollback of a theme migration, with owners editing and the script dying part-way |
| `CacReport` | the acquisition-cost report against a plain count |
| `Push`, `PushRuns` | push deliveries over retries and repeated dispatches |
| `Notes` | a learner's note as a last-write-wins register with a capped clock |
| `StabiliseIds` | renaming ids by first appearance, as a canonical form |
| `MarketingEvents`, `MarketingTable` | marketing beacons: the parser, one batch, the additive daily table |
| `MarketingPath`, `Announcements` | which page a path means, and which announcements it gets |
| `Ledger` | the backfill of the customer ledgers |
| `Certificates` | verification codes and certificate serials |
| `Prelude` | `Option`, `Result`, and insertion-ordered sets as sequences |

A piece of code between two awaits is a function on a record of the fields it touches. The
services that change their fields are classes whose methods do the same in place, loop by
loop, and are proved to agree with those functions. For the concurrent parts a `World` holds
the fields and what is under way, a `Step` is one uninterrupted piece of code or a move of the
surroundings, and a step that is not possible in a state changes nothing, so that every
sequence of steps is a run. Results about runs hold for every such sequence. Fields that only
record history are marked as such where they are declared.

## Findings

Where the code does not do what its documentation says, or a claim holds only sometimes, the
model follows the code and a lemma gives the exact condition.

- **The 30 s revocation bound of the video gate does not hold** (`authz.js:14-27, 179-180`). A
  request that joins a call computes the expiry from its own arrival time, not from the moment
  the question was sent, so the time the call was open is added. `GateBound.BoundExact` gives
  the bound that a window and a call limit meet, both ways. With the default window it is
  missed by any call longer than 1 ms; with a window of 27 s it is met up to calls of 3.001 s.
  The call limit is not `AUTHZ_TIMEOUT_MS`: signing comes before the timed fetch
  (`authz.js:196-217`), so 27 s leaves 1 ms for it at the default timeout.
- **A rollback does not undo every move**: it skips moves whose old theme key was the empty
  string, because the apply report is filtered by truthiness (`retire-website-themes.ts:190`),
  and academies that have no active owner at that moment (lines 241-248).
  `RollbackUndoesApply` is the exact condition.
- **Moves can be committed and be in no report**: the query and the write after the loop are
  outside its `try` (lines 420-457), and the `catch` writes with the same call. Nothing can be
  rolled back from then on. `OnRecordExactly` says when, `MoveWithoutReport` is the run.
- **A theme an owner chooses can be overwritten in two ways.** Chosen between a transaction's
  read and its update, in apply and in rollback, it goes unless the content's fingerprint
  changes as well, because the fingerprint leaves the theme key out (`LostInWindow`). Chosen
  before the read, it goes when the website then reads as one the script may write: in a
  rollback an owner who has gone back to the replacement on the content that was moved is taken
  for the script's own move (`RollbackTakesTheReplacement`). `ThemeLostExactly` says over whole
  runs that these are the only ways; content is never lost (`ContentIsTheOwners`).
- **An upload whose row change takes effect and then fails deletes the photo the row now names**
  (`user-avatar.service.ts:145-148`) and leaves the replaced one behind (`TornUpload`). Every
  such case is in `ConservationExact`.
- **`cairoStartOfDay` is the first instant of the day exactly when no forward change of the
  clocks straddles local midnight** (`StartOfDayExact`). Egypt's changes never do
  (`EgyptianNights`).
- **`addMonths` gives a month exactly when the result is not before year 0**; before that
  JavaScript's `%` takes the sign of its left operand: index -1 gives a month `00`, index -12
  gives `00-1-01` (`AddMonthsExact`).
- **Undated evidence that comes first would be kept in the ledger backfill**, even when dated
  evidence of the same customer follows (`EarliestExact`). The type of the evidence allows a
  missing date; the columns the script reads it from (`occurred_at`, `cancelled_at`,
  `created_at`) do not, and with dated evidence the chosen one is the earliest
  (`DatedIsEarliest`).
- **A push can be sent twice**: when the bookkeeping of an attempt that delivered does not commit
  and a try is left, when the worker dies before the queue hears that the attempt ended, booked
  or not, and when the queue forgets the row's finished job. `SecondPushExactly` says that these
  and no other steps allow it; without them there is at most one push (`AtMostOnce`).
- **`normalizeMarketingPath` is not idempotent** on a path with two leading locales, nor on one
  with white space before a closing slash, as in `/pricing /` (`NormalizeTwice`,
  `SpaceBeforeSlash`).
- **`stabiliseIds` leaves text alone that already reads like a stable id**, so that such a text
  and an id can give the same output (`TextLikeAnId`).
- **A referrer loses one `www.` each time it is parsed** (`ParsedAgain`).

## Model

| member | source | states |
|---|---|---|
| DecisionCaches.CacheWindowSeconds | deploy/video-gate-worker/src/authz.js:132-136 | the window is the setting cut to whole seconds, kept within 0 and 30 s, and 30 s when there is none |
| DecisionCaches.ParseReply | deploy/video-gate-worker/src/authz.js:218-228 | only a well-formed 200 is an answer; it allows exactly when the body says `allow: true`; its window is 0 to 30 s |
| DecisionCaches.KeyOfInjective | deploy/video-gate-worker/src/authz.js:161 | two (object, token) pairs never share a cache key, whatever the object keys contain |
| DecisionCaches.SetBounded | deploy/video-gate-worker/src/authz.js:91-98 | a write keeps the size bound, holds the new key, and changes no other entry except by dropping it |
| DecisionCaches.SetDropsOnlyWhenFull | deploy/video-gate-worker/src/authz.js:91-98 | nothing is dropped while the keys fit |
| DecisionCaches.SetDropsTheOldest | deploy/video-gate-worker/src/authz.js:91-98 | what goes is what was inserted first; the written key is the latest, and the cache stays as full as it may |
| DecisionCaches.LookupExactly | deploy/video-gate-worker/src/authz.js:81-89 | a lookup hits exactly while the entry lives; an expired one is gone afterwards and nothing else is |
| DecisionCaches.DecisionCache.Lookup | deploy/video-gate-worker/src/authz.js:81-89 | the lookup in place: an expired entry is deleted and is no hit |
| DecisionCaches.DecisionCache.Store | deploy/video-gate-worker/src/authz.js:91-98 | the eviction loop ends and drops exactly the oldest insertions needed |
| DecisionCaches.DecisionCache.BeginAuthorize | deploy/video-gate-worker/src/authz.js:161-172 | a request hits, joins the call in flight, or starts one |
| DecisionCaches.BeginExactly | deploy/video-gate-worker/src/authz.js:161-172 | a live decision is a hit, whatever is in flight; else a request joins its key's call, and only without one is a question asked, under that key; an expired decision goes |
| DecisionCaches.DecisionCache.SettleCall | deploy/video-gate-worker/src/authz.js:168-170 | a settled call leaves the calls in flight |
| DecisionCaches.DecisionCache.FinishAuthorize | deploy/video-gate-worker/src/authz.js:173-191 | each waiter computes its own entry, stores it when it has time left, and gets its verdict; no answer stores nothing |
| Gate.HitIsIdeal | deploy/video-gate-worker/src/authz.js:81-98 | the bounded cache refines an unbounded map: a hit is the latest answer stored for that key, and live; until more keys were stored than fit, a live answer is always a hit |
| Gate.StepKeeps | deploy/video-gate-worker/src/authz.js:151-186 | every step of every interleaving keeps the invariant: open calls and keys in flight are the same, every entry and verdict is what its writer computed from an answered call |
| Gate.RunKeeps | deploy/video-gate-worker/src/authz.js:151-186 | the same over whole runs |
| GateBound.AllowTracesToAtlas | deploy/video-gate-worker/src/authz.js:173-233 | every allow, cached or not, comes from a 200 with `allow: true` for exactly that object and token, evaluated after the question was sent; failures never allow |
| GateBound.VerdictExactly | deploy/video-gate-worker/src/authz.js:173-233 | over every run, a verdict is an allow if and only if its origin call was answered with a 200 saying `allow: true`, a refusal if and only if it said `allow: false`, with the first 64 characters of its reason or none, and unavailable if and only if it failed or was not a well-formed 200; it is marked cached exactly when it came from the cache |
| GateBound.StoredWindow | deploy/video-gate-worker/src/authz.js:179-186 | over every run, a stored decision says what the reply said and lives from its writer's arrival for the shorter of the configured window and the reply's own, and never past the token's expiry |
| GateBound.StoresExactly | deploy/video-gate-worker/src/authz.js:173-186 | a waiter stores if and only if the answer leaves it time to live: no answer, no usable `ttlSeconds`, a window of 0 or an expired token store nothing |
| GateBound.CacheRespectsExpiry | deploy/video-gate-worker/src/authz.js:182 | no cached answer is used at or past the token's own expiry |
| GateBound.SingleFlight | deploy/video-gate-worker/src/authz.js:165-172 | at most one question per key is open at any moment |
| GateBound.RevocationBound | deploy/video-gate-worker/src/authz.js:151-186 | over all interleavings, no request arriving at or after T + window + longest call is allowed once Atlas stopped honouring the key at T; without the call term when the sender of the question wrote the entry |
| GateBound.BoundExact | deploy/video-gate-worker/src/authz.js:179-182 | a window and a call limit meet a bound if and only if their slack is within it |
| GateBound.DocumentedBound | deploy/video-gate-worker/src/authz.js:14-27 | the documented 30 s is met with the default window if and only if no call takes more than 1 ms, with a 27 s window if and only if none takes more than 3001 ms, and 30 s plus the longest call is always met |
| GateBound.JoinedAnswer | deploy/video-gate-worker/src/authz.js:165-184 | a run in which a joiner carries an answer on from the end of a long call |
| GateBound.LateAllow | deploy/video-gate-worker/src/authz.js:165-184 | a run that reaches the slack exactly, for every window and call limit |
| EdgePurge.EdgeCachePurgeService.EnqueueTags | src/edge-cache/edge-cache-purge.service.ts:159-163 | tags are added with the debounce and once more by a second-pass timer |
| EdgePurge.EdgeCachePurgeService.Insert | src/edge-cache/edge-cache-purge.service.ts:165-168 | adding tags one by one keeps insertion order and repeats none |
| EdgePurge.EdgeCachePurgeService.ScheduleFlush | src/edge-cache/edge-cache-purge.service.ts:179-190 | one flush timer, never while a flush runs, never within 12 s of the last request |
| EdgePurge.EdgeCachePurgeService.LaterFires | src/edge-cache/edge-cache-purge.service.ts:170-177 | a second-pass timer removes itself and adds its tags |
| EdgePurge.EdgeCachePurgeService.FlushTimerFires | src/edge-cache/edge-cache-purge.service.ts:192-217 | a flush takes the 30 oldest tags out of the set and sends exactly those |
| EdgePurge.EdgeCachePurgeService.FlushResponds | src/edge-cache/edge-cache-purge.service.ts:217-226 | a 429 puts the batch back behind what is waiting, any other outcome does not |
| EdgePurge.EdgeCachePurgeService.FlushSettles | src/edge-cache/edge-cache-purge.service.ts:226-233 | the end of a flush schedules the next when something waits |
| EdgePurgeRuns.StepKeeps | src/edge-cache/edge-cache-purge.service.ts:159-233 | every event keeps: waiting tags have a timer or a flush, requests are spaced, every want is served or waiting, every second pass is kept |
| EdgePurgeRuns.RunKeeps | src/edge-cache/edge-cache-purge.service.ts:159-233 | the same over whole runs |
| EdgePurgeRuns.DueAsSoonAsAllowed | src/edge-cache/edge-cache-purge.service.ts:159-189 | tags that find the queue asleep set the timer for the first moment 1.5 s away and 12 s after the last request, others do not move it; either way a second pass is set for 15 s later |
| EdgePurgeRuns.SecondPassDue | src/edge-cache/edge-cache-purge.service.ts:162-189 | a second pass that finds the queue asleep sets the timer for now or for 12 s after the last request, whichever is later, and does not move one that is set; its own timer goes, the others stay in order, its tags wait |
| EdgePurgeRuns.SettledDue | src/edge-cache/edge-cache-purge.service.ts:179-233 | the end of a flush sets the next one for now or for 12 s after its request when something waits, and none otherwise |
| EdgePurgeRuns.FlushTakes | src/edge-cache/edge-cache-purge.service.ts:192-226 | a flush takes the first 30 waiting tags, or all of fewer, and puts them back behind the others exactly on a 429 |
| EdgePurgeRuns.RecordsExactly | src/edge-cache/edge-cache-purge.service.ts:159-226 | what runs record: every call to `enqueue` and every pass of it, every request with its 30 oldest tags, and which were answered with a 429 |
| EdgePurgeRuns.NoLostWakeup | src/edge-cache/edge-cache-purge.service.ts:179-190 | in every reachable state waiting tags have a flush timer or a running flush, never both, and a timer goes off within 12 s |
| EdgePurgeRuns.NoLostWork | src/edge-cache/edge-cache-purge.service.ts:159-226 | what was enqueued at e is waiting or carried by a request begun at or after e and not turned away; the same for e + 15 s once its timer has fired |
| EdgePurgeRuns.RequestsAreSpaced | src/edge-cache/edge-cache-purge.service.ts:179-205 | requests start at least 12 s apart and carry 1 to 30 different tags |
| EdgePurgeRuns.BoundedWait | src/edge-cache/edge-cache-purge.service.ts:192-205 | a tag at position p is carried by one of the next p / 30 + 1 requests, however many tags are added |
| EdgePurgeRuns.CarriedBy | src/edge-cache/edge-cache-purge.service.ts:179-233 | when timers and responses are late by at most a lag, that request starts within so many cycles of the time the next one is due |
| EdgePurgeRuns.WaitInTime | src/edge-cache/edge-cache-purge.service.ts:179-233 | the same counted from now: (p / 30 + 1) cycles, a cycle being max(10 s + lag, 12 s) + lag |
| EdgePurgeRuns.Drains | src/edge-cache/edge-cache-purge.service.ts:192-233 | with no new tags and no 429, n requests leave what was behind the first 30 n tags |
| EdgePurgeRuns.CanDrain | src/edge-cache/edge-cache-purge.service.ts:192-233 | from every reachable state a quiet run empties the queue |
| Avatar.AvatarKeyExact | src/profile-photo/user-avatar.service.ts:108-114 | a URL has a key if and only if it is the address of that avatar key |
| Avatar.AddressExactly | src/profile-photo/user-avatar.service.ts:108-114 | letter by letter, the URLs that have a key, and their keys: `/api/v1/public/media/users/avatars/`, a lower-case UUID, `.webp` |
| Avatar.AloneConserves | src/profile-photo/user-avatar.service.ts:129-174 | alone, an upload leaves exactly the new photo, a refused one changes nothing, a removal leaves nothing; an upload whose change takes effect and fails leaves the old photo and a row naming a deleted one |
| Avatar.UserAvatarService.ChangeUrl | src/profile-photo/user-avatar.service.ts:181-205 | the row changes and the displaced URL is returned, nothing changes, or it changes and the caller sees an exception |
| Avatar.UserAvatarService.DeleteQuietly | src/profile-photo/user-avatar.service.ts:207-217 | the object goes, or stays when the delete is refused; a failure is not reported |
| Avatar.UserAvatarService.Upload | src/profile-photo/user-avatar.service.ts:129-153 | write, change the row, delete what is no longer named; each call done, refused, or done and then failing |
| Avatar.UserAvatarService.Remove | src/profile-photo/user-avatar.service.ts:160-174 | delete first, then change the row, whatever happens in between; a refused delete leaves everything as it was; accepted exactly when every call it had to make was done, and then no photo is set |
| Avatar.RefusedRemovalKeeps | src/profile-photo/user-avatar.service.ts:160-164 | a removal whose delete is refused changes nothing and is not accepted |
| Avatar.BrokenRemoval | src/profile-photo/user-avatar.service.ts:160-174 | a removal that breaks off at its delete leaves the row, and one that breaks off at its row change deletes nothing more |
| Avatar.AcceptedRemoval | src/profile-photo/user-avatar.service.ts:160-174 | after an accepted removal no photo is set, the photo it read is gone whatever others do in between, as long as no key is used twice, a photo set meanwhile is deleted as well, and no other object is touched |
| AvatarRuns.RunKeeps | src/profile-photo/user-avatar.service.ts:129-217 | any number of operations, interleaved at every await, each call done, refused, or done and then failing, keep the ownership invariant |
| AvatarRuns.OwnedByExactlyOne | src/profile-photo/user-avatar.service.ts:129-217 | on the way, an object the row does not name has leaked or is owned by exactly one operation, however the others fail |
| AvatarRuns.ConservationExact | src/profile-photo/user-avatar.service.ts:129-217 | once all have finished, the orphans are exactly the leaked objects (quiet delete refused, put failed after writing, displaced by a change that failed after committing), and the row dangles exactly when what it names is lost (deleted by a removal without its row change, or by an upload cleaning up after such a change) |
| AvatarRuns.Conservation | src/profile-photo/user-avatar.service.ts:129-217 | when nothing takes effect and then fails, and quiet deletes and removals' row changes are done, the store holds exactly the object `avatar_url` names; refused uploads and removals do no harm |
| AvatarRuns.UploadAloneIsARun | src/profile-photo/user-avatar.service.ts:129-153 | the method's upload and the run of its steps agree, whatever fails |
| AvatarRuns.RemoveIsARun | src/profile-photo/user-avatar.service.ts:160-174 | the method's removal and the run of its steps agree, whatever fails and whatever others do between its delete and its row change; with them it has finished |
| AvatarRuns.TornUpload | src/profile-photo/user-avatar.service.ts:140-149 | one upload whose change takes effect and then fails: the row names a deleted photo and the old one stays behind |
| Calendar.DateOfDayNumber | src/growth/growth-time.ts:96-106 | the date of a date's day number is that date |
| Calendar.DayNumberOfDate | src/growth/growth-time.ts:96-106 | the day number of a day's date is that day: with the row above, a bijection |
| Calendar.DayNumberCounts | src/growth/growth-time.ts:96-106 | day numbers count the Gregorian calendar's days from 1 January 1970 |
| Calendar.ParseFormatDate | src/growth/growth-time.ts:57-82 | a formatted date parses back |
| GrowthTime.DateStringsAreDays | src/growth/growth-time.ts:79-106 | date strings of the years 100 to 9999 and day numbers correspond one for one |
| GrowthTime.DaysAct | src/growth/growth-time.ts:96-106 | `addDays` composes, `daysBetween` inverts it, and different distances give different dates |
| GrowthTime.DistanceLeads | src/growth/growth-time.ts:96-106 | `addDays(d, daysBetween(d, e)) = e` |
| GrowthTime.WeekStartIsTheSaturday | src/growth/growth-time.ts:109-113 | `weekStartSaturday` is the one day of the seven up to the date that is a whole number of weeks from 3 January 1970 |
| GrowthTime.Anchor | src/growth/growth-time.ts:96-113 | 3 January 1970 is day 2, written `1970-01-03`, and a Saturday: a date's weekday is 6 exactly a whole number of weeks from it |
| GrowthTime.AddMonthsExact | src/growth/growth-time.ts:116-120 | `addMonths` moves the month index, and gives a month if and only if the index stays at or above 0 |
| GrowthTime.BeforeYearZero | src/growth/growth-time.ts:116-120 | one month before year 0 comes out as `00-1-00`, two as `00-1--1`, twelve as `00-1-01` |
| GrowthTime.MonthAnchor | src/growth/growth-time.ts:116-120 | `1970-03` is a month, the third of 1970 |
| GrowthTime.MonthsAct | src/growth/growth-time.ts:116-127 | `addMonths` composes and `monthCount(m, addMonths(m, k)) = k + 1` |
| GrowthTime.MonthCountIsDistance | src/growth/growth-time.ts:123-127 | `monthCount` is the distance of the months, both counted |
| GrowthTime.MonthRangeExact | src/growth/growth-time.ts:130-133 | `monthRange` holds exactly the months between, in order, without a gap |
| GrowthTime.WindowIsSound | src/growth/month-range.ts:18-47 | the window holds exactly the months asked for and keeps every bound given; it is invalid if and only if a bound is not a month of 2020 to 2100 or no month is asked for, too long if and only if more than 36 are |
| CairoDay.OffsetRecovered | src/growth/growth-time.ts:62-66 | reading the wall clock back as UTC recovers the zone's offset |
| CairoDay.SameDate | src/growth/growth-time.ts:69-72 | `cairoDate` is a date if and only if the local day is that date's day |
| CairoDay.StartOfDayExact | src/growth/growth-time.ts:85-93 | `cairoStartOfDay` is the least instant of the date if and only if no forward gap straddles its midnight |
| CairoDay.EgyptianNights | src/growth/growth-time.ts:85-93 | the skipped midnight starts at 01:00, the repeated hour is counted once |
| ThemeRetirement.Arguments | src/scripts/retire-website-themes.ts:145-197 | which files and flags are refused and why, exactly; otherwise apply runs only on a dry-run report, rollback only on an apply report, and without `--apply` only rehearsals |
| ThemeRetirement.Retirement.BeginAcademy | src/scripts/retire-website-themes.ts:231-373 | up to the update: what the transaction reads decides what it reports or is going to write |
| ThemeRetirement.Retirement.RecheckAndCommit | src/scripts/retire-website-themes.ts:296-301 | the second read: on another fingerprint everything is undone and the script stops; else the outcome is written down and the transaction commits, or fails |
| ThemeRetirement.Retirement.VisitAcademy | src/scripts/retire-website-themes.ts:231-397 | one academy's transaction in place (read, decide, update, read again, compare, commit or fail), with what owners commit before the update and before the second read |
| ThemeRetirement.Retirement.HappenAll | src/scripts/retire-website-themes.ts:226-400 | the loop over the academies, with owners committing at any point, also inside a transaction, and the script dying anywhere |
| ThemeRetirementRuns.RunKeeps | src/scripts/retire-website-themes.ts:226-400 | in every mode and run, a website is as its owners' changes make it, or that with the theme the script wrote after reading a website it may write |
| ThemeRetirementRuns.WritesExactly | src/scripts/retire-website-themes.ts:267-373 | an apply writes if and only if the website read matches the plan and can be drawn, a rollback if and only if it is on the replacement with the recorded content, a dry run and a rollback dry run never, with or without a file |
| ThemeRetirementRuns.ContentIsTheOwners | src/scripts/retire-website-themes.ts:288-301 | over every run of every mode, content is never lost: every website is there with the content its owners' changes alone give it |
| ThemeRetirementRuns.ApplyMovesOnlyThePlanned | src/scripts/retire-website-themes.ts:348-396 | over a whole apply with owners committing anywhere, a website differs from what its owners made of it if and only if the script has written it since they last replaced it; what it has written it had read as the plan has it, and only theme and version differ |
| ThemeRetirementRuns.OthersAreNotTouched | src/scripts/retire-website-themes.ts:231-232 | an academy that is not in the file is never written |
| ThemeRetirementRuns.DryRunOnlyReads | src/scripts/retire-website-themes.ts:335-346 | a dry run writes nothing, and records of a website left alone exactly whether its theme is gone |
| ThemeRetirementRuns.VerdictExactly | src/scripts/retire-website-themes.ts:231-397 | a turn reports at most one verdict, and each of the nine for exactly its own reasons, in every mode |
| ThemeRetirementRuns.NothingMovesWithoutApply | src/scripts/retire-website-themes.ts:145-169 | whatever files it is given: without `--apply`, over every run, every website is exactly as its owners left it |
| ThemeRetirementRuns.RehearsalReports | src/scripts/retire-website-themes.ts:312-346 | a rehearsal reports of a website left alone that it would be restored if and only if its turn went through and a rollback would restore it, and that it would be moved if and only if its turn went through, it is in the plan if there is one, and its theme is gone; it never reports a move |
| ThemeRetirementRuns.LastRecordCounts | src/scripts/retire-website-themes.ts:170-197 | what a later run acts on for an academy is its last outcome on record: a planned move, or a move with a theme and a fingerprint |
| ThemeRetirementRuns.AppliedState | src/scripts/retire-website-themes.ts:226-400 | after an apply that stopped anywhere, a website left alone is moved if and only if its turn went through and it matches the plan, and is otherwise as before; its move is in the outcomes when its old theme has a name |
| ThemeRetirementRuns.RollbackUndoesApply | src/scripts/retire-website-themes.ts:182-311 | rolling back the report, also of a crash, gives a website left alone its theme and content back with `configVersion` + 2 if and only if it was moved, its old theme has a name, and its turn goes through with an active owner; otherwise it stays as the apply left it |
| ThemeRetirementRuns.TurnServes | src/scripts/retire-website-themes.ts:231-397 | a turn with an active owner that is not broken off goes through |
| ThemeRetirementRuns.ServedHadOwner | src/scripts/retire-website-themes.ts:234-248 | no turn goes through without an active owner |
| ThemeRetirementRuns.RollbackSparesEdits | src/scripts/retire-website-themes.ts:267-311 | over a whole rollback with owners committing anywhere, a website differs from what its owners made of it if and only if the script has written it since they last replaced it; what it has written it had read on the replacement with the recorded content, and only theme and version differ |
| ThemeRetirementRuns.RolledBackState | src/scripts/retire-website-themes.ts:267-311 | after a rollback that stopped anywhere, a website left alone is restored if and only if its turn went through and it is on the replacement with the recorded content, and is otherwise as before |
| ThemeRetirementRuns.ApplyTwiceIsApplyOnce | src/scripts/retire-website-themes.ts:324-363 | applying a plan again, after a run that stopped anywhere, equals one complete apply |
| ThemeRetirementRuns.ThemeLostExactly | src/scripts/retire-website-themes.ts:226-400 | over whole runs of every mode, a theme an owner chooses (and nobody replaces again) is lost if and only if a transaction of that academy was open before its update, writes another theme and goes through, or a later turn reads the website as chosen, with the content then, is allowed to write another theme to exactly that, and goes through; the content is the owners' either way |
| ThemeRetirementRuns.LostInWindow | src/scripts/retire-website-themes.ts:254-301 | what the rest of an open transaction does to a theme chosen meanwhile: lost if and only if chosen between that academy's read and update, the fingerprint ends up as read, the theme is not the one being written, and the commit takes effect |
| ThemeRetirementRuns.RollbackTakesTheReplacement | src/scripts/retire-website-themes.ts:267-311 | the rollback run that overwrites a replacement theme its owner chose before the read |
| ThemeRetirementRuns.StopsExactly | src/scripts/retire-website-themes.ts:226-400 | the script stops if and only if it is broken off, the row is gone at its update or second read, the fingerprint has changed by then, or the commit does not answer; the outcome is written down before that is known; owners are kept only from the updated row |
| ThemeRetirementRuns.DeadStaysDead | src/scripts/retire-website-themes.ts:226-419 | a script that has stopped reports, serves and writes nothing more, whatever owners do |
| ThemeRetirementRuns.OnRecordExactly | src/scripts/retire-website-themes.ts:400-457 | a committed move is on record if and only if the script finished or died inside its loop |
| ThemeRetirementRuns.MoveWithoutReport | src/scripts/retire-website-themes.ts:420-457 | the run in which a move is committed and no report is left |
| CacReport.CacIsNearest | src/growth/growth-math.ts:52-54 | there is a cost per payer if and only if somebody pays, and it is the nearest whole minor unit, a tie going up |
| CacReport.RatioIsNearest | src/growth/growth-math.ts:57-59 | there is a share if and only if there is a whole, and it is the nearest ten-thousandth, a tie going up |
| CacReport.ChannelRows | src/growth/growth-math.ts:75-87 | one row per spend channel, in order, each the channel's bucket and cost |
| CacReport.AddUp | src/growth/growth-math.ts:89-110 | the totals are the sum of all buckets, `unknown` included |
| CacReport.CountRows | src/growth/growth-math.ts:126-147 | the one-pass loops leave in every bucket what a plain count gives |
| CacReport.BuildCacReport | src/growth/growth-math.ts:121-165 | the report is the counting specification's |
| CacReport.TallyCounts | src/growth/growth-math.ts:130-147 | a cell counts the organizations of its months and channels, those of them that pay, and the founding ones among these; its spend is the sum of the rows of its months and channels |
| CacReport.SectionExactly | src/growth/growth-math.ts:75-110 | a section's rows have the channels in order, each its own cell and cost; its totals are of everybody, and the attributed signups are the organizations whose channel is known |
| CacReport.ReportExactly | src/growth/growth-math.ts:148-164 | a section for every month asked for, in order, one for all of them, and as coverage the share of the window's organizations whose channel is known |
| CacReport.ChannelsComplete | src/growth/growth-math.ts:75-76 | the rows cover every channel but `unknown`, each once |
| CacReport.OverallIsSumOfMonths | src/growth/growth-math.ts:148-158 | the overall section is the sum over the months |
| CacReport.RowsAddUp | src/growth/growth-math.ts:75-110 | the channel rows sum to the attributed signups, and with `unknown` to the totals |
| CacReport.PayersSignedUp | src/growth/growth-math.ts:130-141 | founding payers are payers and payers signed up, in every cell |
| CacReport.OutsideNeverCounts | src/growth/growth-math.ts:131-132 | input outside the window never counts |
| CacReport.ReportIgnoresOrder | src/growth/growth-math.ts:121-165 | the report does not depend on the order of its input |
| Push.CountsAddUp | src/push/push-delivery.service.ts:114-162 | sent, removed and failed devices add up to the devices of the attempt, each counted by its own result |
| Push.AttemptExactly | src/push/push-delivery.service.ts:114-162 | by the devices' own results: when an attempt throws; that a thrown one waits for the next of three attempts or is given up, and one whose worker died is re-run once; that delivered devices get the new time, the others keep theirs, and dead ones go |
| Push.PushService.EnqueueRow | src/push/push.producer.ts:29-49 | one job per outbox row while the queue knows its id, and none at all while the flag is off |
| Push.PushService.SendAll | src/push/push-delivery.service.ts:114-140 | the device loop's counters |
| Push.PushService.Deliver | src/push/push-delivery.service.ts:114-162 | one attempt: booking, the retry decision and the outcome, also when the booking fails or the worker dies before the queue hears of the end |
| PushRuns.NothingPushedYet | src/push/push.producer.ts:29-49 | a fresh system satisfies what at-most-once starts from, for every row and device |
| PushRuns.RecordsExactly | src/push/push-delivery.service.ts:114-156 | what runs record: every device tried, and as dead exactly those a booked attempt found invalid |
| PushRuns.ExposedExactly | src/push/push-delivery.service.ts:114-162 | a row and device become open to a second push exactly by an attempt that pushes and is tried again (booking failed with a try left, or its worker died), or by the queue forgetting the finished job |
| PushRuns.AtMostOnce | src/push/push-delivery.service.ts:114-162 | at most one push per outbox row and device over all dispatches, retries, re-runs and attempts, while no exposing step happens |
| PushRuns.RepeatsExactly | src/push/push.producer.ts:29-49 | a pushed row can be pushed to the device again, the queue keeping its job, if and only if the two are exposed |
| PushRuns.SecondPushExactly | src/push/push-delivery.service.ts:114-162 | a step after which the row is on the device can be continued to a second push if and only if it is an exposing step |
| PushRuns.RetriedExactly | src/push/push-delivery.service.ts:157-162 | an attempt does not complete if and only if it sent nothing and something was transient, it could not book, or the queue never heard of its end |
| PushRuns.TriedAtMost | src/push/push.producer.ts:29-43 | over every run in which the queue keeps its job, a row is tried at most four times, however often it is dispatched: three attempts and one re-run |
| PushRuns.LostBookingRepeats | src/push/push-delivery.service.ts:142-156 | from a fresh system, each of the three ways to a second push is a run |
| PushRuns.DeadStayDead | src/push/push-delivery.service.ts:143-148 | a device booked as dead is never tried again |
| Notes.LearnerNotes.PutNote | src/learner-sync/learner-notes.service.ts:43-96 | one put in place, and no other note changes |
| Notes.FirstGreatestWins | src/learner-sync/learner-notes.service.ts:50-94 | after any deliveries the note is the first one with the greatest capped edit time |
| Notes.AppliedExactly | src/learner-sync/learner-notes.service.ts:43-96 | a put is answered with the note as it then is, and as applied if and only if its edit is newer than every edit before it, which is when the note changes; not found if and only if the learner may not keep one |
| Notes.CourseStays | src/learner-sync/learner-notes.service.ts:88-93 | the note keeps the course it was created with |
| Notes.Converges | src/learner-sync/learner-notes.service.ts:50-94 | the same edits, in any order and delivered any number of times, leave the newest |
| Notes.TimesGrow | src/learner-sync/learner-notes.service.ts:50-94 | the edit time only grows and never exceeds the server time of the put that stored it |
| Notes.FutureCannotShutOut | src/learner-sync/learner-notes.service.ts:50-87 | a future-dated edit cannot shut out an edit made after it was received |
| StabiliseIds.StabiliseTokens | scripts/export-website-template-fixtures.ts:136-145 | the scan with its map gives every id the number of its first appearance |
| StabiliseIds.NeverCollapse | scripts/export-website-template-fixtures.ts:136-145 | two places get the same output if and only if they held the same token |
| StabiliseIds.RenamingIsInvisible | scripts/export-website-template-fixtures.ts:136-145 | an injective renaming of the ids gives the same output |
| StabiliseIds.EqualOutputsAreRenamings | scripts/export-website-template-fixtures.ts:136-145 | equal outputs come with such a renaming |
| StabiliseIds.CanonicalForm | scripts/export-website-template-fixtures.ts:136-145 | equal output if and only if renamings of each other |
| StabiliseIds.TextLikeAnId | scripts/export-website-template-fixtures.ts:136-145 | text that reads like a stable id comes out as an id does, without being a renaming of it |
| StabiliseIds.RenderInjective | scripts/export-website-template-fixtures.ts:140-141 | a stable id shows whether it is a page or an item, and different ones are different strings |
| MarketingEvents.NormalizeReferrerDomain | src/marketing-events/marketing-events.util.ts:85-95 | a referrer is reduced to a bare hostname of at most 100 characters with fewer than seven digits, without its `www.` and final dot, or to nothing |
| MarketingEvents.HostnameIsKept | src/marketing-events/marketing-events.util.ts:85-95 | a hostname within those limits comes through, with or without its `www.` and final dot |
| MarketingEvents.ParseBeacon | src/marketing-events/marketing-events.util.ts:150-159 | the valid ones of the first 20 events, in order |
| MarketingEvents.EachComesThrough | src/marketing-events/marketing-events.util.ts:150-159 | each valid event of a beacon comes through, right behind the valid ones before it, and nothing else does |
| MarketingEvents.RegisteredExactly | src/marketing-events/marketing-events.util.ts:98-106 | a UTM value is itself if and only if registered, nothing when absent or blank, else `unregistered` |
| MarketingEvents.ParsedIsClosed | src/marketing-events/marketing-events.util.ts:98-147 | nothing but the closed vocabularies, the register and a hostname gets through, and no field holds a NUL |
| MarketingEvents.ParserImage | src/marketing-events/marketing-events.util.ts:85-147 | an event can come out of the parser if and only if it is closed, and then some report gives it |
| MarketingEvents.ParsedAgain | src/marketing-events/marketing-events.util.ts:85-147 | a parsed event reported again parses to itself if and only if its referrer has no `www.` left |
| MarketingEvents.BeaconIsClean | src/marketing-events/marketing-events.util.ts:150-159 | every event of a whole beacon is closed and free of NUL |
| MarketingEvents.KeyOfInjective | src/marketing-events/marketing-events.util.ts:161-172 | parsed events share a key only when they agree in all nine dimensions |
| MarketingTable.Aggregate | src/marketing-events/marketing-events.util.ts:179-193 | the loop over the keyed Map counts events as comparing all nine dimensions would |
| MarketingTable.RowsCollapse | src/marketing-events/marketing-events.util.ts:174-193 | the rows are pairwise distinct, cover exactly the events reported, and hold what each contributes |
| MarketingTable.TotalOfBatch | src/marketing-events/marketing-events.util.ts:174-193 | the counts sum to the repeatable events plus the distinct once-per-batch rows |
| MarketingTable.MarketingEventsRepository.Increment | src/marketing-events/marketing-events.repository.ts:34-51 | the additive upsert of distinct rows |
| MarketingTable.MarketingEventsRepository.Record | src/marketing-events/marketing-events.repository.ts:28-51 | aggregated rows meet what `ON CONFLICT` requires |
| MarketingTable.ReceiveBeacon | src/marketing-events/marketing-events.util.ts:150-193 | a whole beacon, from what the browser sent to the table |
| MarketingTable.TableIsTheSum | src/marketing-events/marketing-events.repository.ts:34-51 | every count is what was there plus what each batch of that day contributed |
| MarketingTable.OrderDoesNotMatter | src/marketing-events/marketing-events.repository.ts:28-51 | the table is the same for every order of the batches |
| MarketingTable.SplitsDoNotMatter | src/marketing-events/marketing-events.util.ts:179-193 | a repeatable event's count depends on the day's reports, not on their split into batches |
| MarketingTable.OnceCountsBatches | src/marketing-events/marketing-events.util.ts:174-193 | a once-per-batch event counts the batches that carry it, however often each repeats it |
| MarketingPath.NormalizeMarketingPath | src/site-announcements/site-announcement-rules.ts:69-77 | the replacements give the path of the visitor's non-empty segments without the locale |
| MarketingPath.NormalizeIsSegments | src/site-announcements/site-announcement-rules.ts:69-77 | the same of the function the lemmas use, and the segments are proper |
| MarketingPath.QueryIgnored | src/site-announcements/site-announcement-rules.ts:71-72 | everything from the first `?` or `#` on is ignored, and nothing before it |
| MarketingPath.MatchesIsSegmentPrefix | src/site-announcements/site-announcement-rules.ts:85-91 | matching strings is "segment list is a prefix", `/` being the home page only |
| MarketingPath.PagesOf | src/site-announcements/site-announcement-rules.ts:69-91 | for any raw path, an announcement matches if and only if its list is empty or holds a prefix of the visitor's segments |
| MarketingPath.NormalizeTwice | src/site-announcements/site-announcement-rules.ts:69-77 | normalising again changes nothing if and only if no locale is left in front and no white space at the end |
| MarketingPath.SpaceBeforeSlash | src/site-announcements/site-announcement-rules.ts:71-75 | `/pricing /`, with any segment: the first pass leaves the space, the second trims it |
| Announcements.LiveOnce | src/site-announcements/site-announcement-rules.ts:54-62 | an announcement is live over one interval that holds its start and not its end |
| Announcements.OrderIsTotal | src/site-announcements/site-announcement-rules.ts:135-144 | `byPriority` is priority, then last edit, then id, and a strict total order on rows with different ids |
| Announcements.BannersAreTheBestTwo | src/site-announcements/site-announcement-rules.ts:151-184 | a banner is shown if and only if it is active, begun and not over, has a text in the language and is for the page, and fewer than two such are better; best first |
| Announcements.PopupIsTheBest | src/site-announcements/site-announcement-rules.ts:151-184 | the pop-up is the one such announcement better than every other, and there is none only without candidates |
| Announcements.SelectIgnoresOrder | src/site-announcements/site-announcement-rules.ts:151-184 | the selection does not depend on the order of the rows |
| Ledger.BySubject | src/scripts/backfill-customer-ledgers.ts:239-254 | the loop over the Map, and the count of unrecoverable evidence |
| Ledger.UnrecoverableCounts | src/scripts/backfill-customer-ledgers.ts:239-246 | unrecoverable is the number of pieces of evidence without an address, or of a deleted or erased account |
| Ledger.SubjectsExactly | src/scripts/backfill-customer-ledgers.ts:239-254 | an identity has a subject if and only if it has recoverable evidence, held by its chosen evidence |
| Ledger.OnePerIdentity | src/scripts/backfill-customer-ledgers.ts:239-254 | subject hashes are unique |
| Ledger.EarliestExact | src/scripts/backfill-customer-ledgers.ts:247-251 | the chosen evidence is the earliest dated one if and only if the first is dated or none is |
| Ledger.FirstIsChosen | src/scripts/backfill-customer-ledgers.ts:247-251 | of several pieces of evidence with the chosen date it is the first |
| Ledger.DatedIsEarliest | src/scripts/backfill-customer-ledgers.ts:239-254 | with every piece of evidence dated, each identity's chosen evidence is its earliest, in whatever order the evidence comes |
| Ledger.UndatedFirstIsKept | src/scripts/backfill-customer-ledgers.ts:247-251 | two pieces of evidence whose order decides whether the date is kept |
| Ledger.InChunks | src/scripts/backfill-customer-ledgers.ts:226-236 | looking up in chunks of 5000 finds what one lookup would |
| Ledger.LedgerBackfill.CreateMany | src/scripts/backfill-customer-ledgers.ts:426-437 | rows already there are skipped, and the count is of the rows added |
| Ledger.LedgerBackfill.Lookup | src/scripts/backfill-customer-ledgers.ts:411-424 | filtering by the looked-up hashes equals filtering by the whole ledger |
| Ledger.LedgerBackfill.Backfill | src/scripts/backfill-customer-ledgers.ts:410-452 | a pass writes what the specification says and counts what it did |
| Ledger.PassExactly | src/scripts/backfill-customer-ledgers.ts:410-484 | exactly the identities with evidence and without a row (nor, for trials, a v1 row) get one: version 2, marked as backfill, with the chosen evidence's organization, user and date, or the time of the pass without one; rows found, also those claimed meanwhile, stay |
| Ledger.SecondRunInsertsNothing | src/scripts/backfill-customer-ledgers.ts:410-484 | a second run on the evidence, in any order and with any of it gone, finds nothing to insert, and a dry run writes nothing |
| Certificates.GenerateCode | src/certificates/certificate-serial.util.ts:20-27 | the loop maps each byte to its letter |
| Certificates.GroupsOfFour | src/certificates/certificate-serial.util.ts:42-45 | a hyphen stands at every fifth place and nowhere else, never at the end |
| Certificates.FormatIsCanonical | src/certificates/certificate-serial.util.ts:29-45 | formatting keeps the code, is idempotent, and shows two strings alike if and only if they are the same code |
| Certificates.SpellsExactly | src/certificates/certificate-serial.util.ts:29-31 | a string normalises to a code if and only if it spells it in some case and grouping |
| Certificates.GeneratedIsPlausible | src/certificates/certificate-serial.util.ts:20-45 | a generated code stays plausible and the same code in any case and grouping |
| Certificates.LettersExactly | src/certificates/certificate-serial.util.ts:29-31 | what normalising keeps is the digits and the letters of either case, each letter as its capital |
| Certificates.PlausibleExactly | src/certificates/certificate-serial.util.ts:29-39 | a string is plausible if and only if it has twelve letters and digits and, read as capitals, none of I, L, O and U |
| Certificates.PlausibleIsGenerated | src/certificates/certificate-serial.util.ts:20-39 | every plausible string is the code of some bytes |
| Certificates.SameCodeExactly | src/certificates/certificate-serial.util.ts:20-27 | two draws give the same code if and only if their bytes agree modulo 32 |
| Certificates.AcademySerialPrefix | src/certificates/certificate-serial.util.ts:47-66 | the prefix is the initials read off the name in one scan, else the slug's first three, else `AT` |
| Certificates.PrefixIsClean | src/certificates/certificate-serial.util.ts:47-66 | two to four upper-case letters and digits, never a hyphen |
| Certificates.SerialRoundTrip | src/certificates/certificate-serial.util.ts:68-70 | a serial splits back into prefix, year and counter, also past six digits; the year has no leading zero, and the counter one only to fill six digits |
| Certificates.SerialInjective | src/certificates/certificate-serial.util.ts:47-70 | different prefix, year or counter, different serial |

## Left out

- The health probe's single flight, the founding lock's periods, the scrubbing of error reports
  and the capacity alerts with their weekly buckets: they would only add easier members.
- Controllers, modules, configuration, DTOs, Prisma, row-level security, Redis, BullMQ, HTTP,
  Web Crypto, image encoding: the model uses the contract the code relies on (a row lock, a
  unique key, deduplication by job id, an advisory lock).
- Signing and the token check of the video gate (`gate.js` is not part of this model): a request
  in the model carries a verified token, which has no line break in it. A missing setting is
  refused before the modelled part begins, and `clear` is used by tests only.
- Several Worker isolates: each has its own cache, and the bound is the bound of each.
- JavaScript promises are numbered calls; the order in which waiters resume is arbitrary.
- The host and academy tag builders, and `onModuleDestroy`, of the purge service. A flush whose
  request is refused or fails drops its batch, as the source does: the tags then count as carried.
- A photo URL set through the profile PATCH: only uploads and removals change `avatar_url` here.
- AvatarRuns.Conservation: assumes fresh UUIDs, as the source does, and no failure after taking
  effect; `AvatarRuns.ConservationExact` is without that.
- Years outside 100 to 9999 in date strings, and the loop that collects the formatter's parts: a
  zone is an arbitrary function from instants to offsets of whole seconds.
- CairoDay.StartOfDayExact: covers zones that stay between +2 h and +3 h and change at most once
  within twelve hours of the date's midnight, which is what the two probes assume.
- The theme plan's own reasons for calling a section unmappable, and the canonical JSON behind
  the fingerprint: an arbitrary predicate and an arbitrary function of the content.
- A read of a website is one step here; the source reads its configuration and its pages with
  two queries.
- A worker that goes on pushing after the queue has given its job to another one, and a push the
  provider takes without answering.
- Buckets of the acquisition report are values in a map here; the source shares one object
  between the Map and a loop variable.
- CacReport.CacIsNearest: the division is exact here; the source divides in double precision.
- CacReport.RatioIsNearest: the same.
- Which devices of a recipient are live, and the text of a push: an attempt gets its devices.
- Whether a learner may keep a note on a lesson: one flag per put.
- StabiliseIds.CanonicalForm: is about token sequences, as the regular expression cuts the text,
  not about the texts put together again: `TextLikeAnId` is an input on which those differ.
- The marketing vocabularies, the bot and hostname patterns, trimming and lower-casing, and
  Unicode normalisation of academy names: parameters.
- `sumBetween` and `deleteBefore` of the marketing table: one query each.
- Announcements: ids are their place in the order of `localeCompare`; dashboard audiences and
  activation problems are short tables.
- The evidence queries, the key-continuity check and the state report of the ledger backfill.
