# A verified model of the location server

The server answers `/locate` requests (where is a client that sees these cells, access points and
addresses?) and takes `/update` reports (this is where these cells, access points and addresses are). It
has three databases. UpdateDB collects reports; a refresh pages UpdateDB into LocateDB, which lookups ask
first; ExternalDB is a fixed list of cells that lookups ask when LocateDB has nothing, and whose hits are
written back to UpdateDB in the background. In front of both endpoints stand a rate limiter and an API-key
check with a 30-second cache.

This project models that behaviour in Dafny and proves what it promises. Code that updates state in place
is a class whose methods are proved against specification functions; what happens when requests, refreshes,
cache calls and cleanups overlap is a state machine whose steps are the atomic steps of the server, and
theorems about it quantify over every run.

| module | models |
|---|---|
| `Geo` | the chord formula that fuses two accuracy circles |
| `RateLimiting`, `Gate` | the limiter with its cleanup; limiter and key check in front of a handler |
| `ApiKeys` | the key service, and all interleavings of validating and revoking |
| `AdminSessions` | admin sessions with expiry and cleanup |
| `AutoRefresh` | the loop that starts refreshes on a changing period |
| `Domain`, `Repositories` | cells, rows and keys; the tables of UpdateDB and LocateDB |
| `Refresh`, `Paging` | one refresh; a refresh cut into single fetches and upserts |
| `CellPipeline`, `CellAnswers` | all interleavings on the cell tables, and what lookups may answer |
| `CellRefreshes` | what refreshes do to LocateDB's cells, and how a report comes to be served |
| `SpotPipeline` | the same for the wifi and ip tables |
| `Locate`, `LocateAnswers` | answering one request; what its search promises |
| `Update`, `SessionAdmin` | accepting a report; refreshing from a stored session |

## Where the code does less than its documentation says

Each of these is a theorem below, with the exact condition or a concrete run.

- Revoking a key clears the cache before it deactivates the row (internal/service/apikey.go:48-51). A
  validation in between puts the key back, so a revoked key can still be accepted: exactly while a live
  cache entry or an unfinished fetch holds it as active, and never later than thirty seconds and one
  fetch-to-store delay, but with every shorter delay in some run.
- A constant limit is enforced in all runs exactly if it is at most five minutes, because cleanup forgets
  entries of that age
  (internal/ratelimit/ratelimit.go:53-72).
- Refreshing from a session writes cells under lower-case technologies (internal/service/session_admin.go:98-134)
  while lookups ask for upper-case ones (internal/repository/postgres/locate.go:26-54): such cells are never found.
- A WCDMA lookup in LocateDB uses the scrambling code and not the location area. A cell that no client has
  reported gets ExternalDB's answer in all runs exactly if ExternalDB has no tower with the same network and
  cell id in another area at another place; otherwise a run that looks that tower up, writes it back and
  refreshes makes lookups return it for the cell.
- Overlapping refreshes of wifi or ip can leave an older report over a newer one, although both finish
  without an error: LocateDB keeps the row at the position of the refresh that wrote the name last.
- The fused accuracy is not monotone: at 900 metres it is 100, just beyond it is 1.
- The limiter's exemption for an empty identifier never applies, because the middleware puts a prefix
  before every identifier.

## Model

| member | source | states |
|---|---|---|
| `Geo.CrossingNeedsNoClamp` | internal/geo/geo.go:49-51 | when the circles cross, the distance is not zero and the value under the root is not negative, so the clamp at zero never acts; it is zero exactly at outer tangency |
| `Geo.ChordEndsOnBothCircles` | internal/geo/geo.go:49-51 | both ends of the chord that the formula computes lie on both circles |
| `Geo.HalfChordFactors` | internal/geo/geo.go:49-51 | the squared half-chord is the product of the four tangency gaps over 4d² |
| `Geo.HalfChordSymmetric` | internal/geo/geo.go:50-51 | the half-chord does not depend on which circle comes first |
| `Geo.HalfChordPeak` | internal/geo/geo.go:50-51 | the half-chord never exceeds the smaller radius and equals it exactly when d² = abs(r1² − r2²) |
| `Geo.HalfChordRisesIff` | internal/geo/geo.go:50-51 | between two distances the half-chord grows exactly when their product is below abs(r1² − r2²) and shrinks exactly when it is above: strictly rising to the peak, strictly falling after it |
| `Geo.AccuracyBounds` | internal/geo/geo.go:38-54 | the accuracy always lies between the floor and the smaller radius |
| `Geo.AccuracyIsSmallerRadiusIff` | internal/geo/geo.go:38-54 | it is the smaller radius exactly for nested circles, disjoint circles and the one crossing at the peak |
| `Geo.AccuracySymmetric` | internal/geo/geo.go:38-54 | swapping the two sources does not change the accuracy |
| `Geo.AccuracyAtMostIff` | internal/geo/geo.go:49-53 | for a crossing, exactly which distances give an accuracy of at most a given bound, with no root in the condition |
| `Geo.AccuracyBelowIff` | internal/geo/geo.go:49-53 | the same for an accuracy strictly below a bound |
| `RateLimiting.RateLimiter.Allow` | internal/ratelimit/ratelimit.go:33-51 | one decision and the table after it: refused exactly if the identifier was last allowed less than its period ago; a refusal, a zero period or an empty identifier leaves no trace |
| `RateLimiting.RateLimiter.Cleanup` | internal/ratelimit/ratelimit.go:58-67 | the loop forgets exactly the entries older than five minutes at its clock reading |
| `RateLimiting.DecisionsAreByHistory` | internal/ratelimit/ratelimit.go:35-72 | in every run, whatever cleanup does, a request is refused only if an earlier allowed request of its identifier is less than its period ago, both with a period; with a period of at most five minutes it is refused exactly then |
| `RateLimiting.UnlimitedIsAdmitted` | internal/ratelimit/ratelimit.go:36-38 | with period zero or an empty identifier a request is admitted and leaves the table as it was; an identifier without an entry is admitted |
| `RateLimiting.UnlimitedLeaveNoTrace` | internal/ratelimit/ratelimit.go:36-38 | dropping all zero-period requests from a run changes no other decision |
| `RateLimiting.CleanupUnobservable` | internal/ratelimit/ratelimit.go:35-72 | in every run whose periods are at most five minutes, all decisions are those of a limiter that never cleans |
| `RateLimiting.CleanupHiddenIff` | internal/ratelimit/ratelimit.go:35-72 | for a constant period, cleanup is unobservable in all runs exactly if the period is at most five minutes |
| `RateLimiting.AllowedAreSpaced` | internal/ratelimit/ratelimit.go:35-72 | whatever the periods and the cleanups, two recorded requests of one identifier are at least the later period, or five minutes, apart |
| `RateLimiting.EnforcedIff` | internal/ratelimit/ratelimit.go:35-72 | recorded requests keep a constant period in all runs exactly if the period is at most five minutes |
| `RateLimiting.GreedyIsOptimal` | internal/ratelimit/ratelimit.go:35-51 | for a constant period no spaced selection of an identifier's arrivals is larger than what is allowed, and up to five minutes the allowed ones are such a selection |
| `RateLimiting.IdentifiersAreIsolated` | internal/ratelimit/ratelimit.go:35-72 | an identifier gets the decisions it would get if no other identifier existed |
| `Gate.Serve` | internal/api/middleware/ratelimit.go:50-68 | one request: 429 exactly if the limiter refuses its client's bucket; else without a key 401 exactly if a key is required, and with a key 500, 403 or the handler by the verdict |
| `Gate.BucketsAreInjective` | internal/api/middleware/ratelimit.go:52-66 | two clients share a bucket only if endpoint, kind and key or identifier are the same, whatever characters they contain |
| `Gate.BucketsAreNotEmpty` | internal/api/middleware/ratelimit.go:52-66 | the limiter never sees an empty identifier |
| `Gate.HandlerRunsIff` | internal/api/middleware/auth.go:13-38 | a handler runs exactly for what the limiter lets pass and that either has no key where none is required or has a valid key |
| `Gate.PassedIff` | internal/api/middleware/ratelimit.go:50-68 | in every run a request is held back only if an earlier one of the same endpoint and key, or without keys of the same endpoint and identifier, passed less than the period for its kind ago; with a limit of at most five minutes exactly then |
| `Gate.HandlerRunsAreSpaced` | internal/api/server.go:28-54 | in every run, two runs of a handler for one client are at least the later limit, or five minutes, apart |
| `Gate.HandlerRunsNeedALiveKey` | internal/api/middleware/auth.go:13-38 | over all interleavings of the key service, no handler runs for a request whose key was deactivated thirty seconds and one fetch-to-store delay before it was validated |
| `Gate.SettledKeysAreHandled` | internal/api/middleware/auth.go:13-38 | for an active key created at least that long before, a handler runs exactly if the limiter allows the request and the key's scope fits the endpoint |
| `Gate.KeysStayInScope` | internal/api/server.go:36-54 | no handler runs for a key that was not, less than thirty seconds and one delay before its validation, active and of the endpoint's scope or of both |
| `Gate.ClientsDoNotInterfere` | internal/api/server.go:28-54 | the limiter decides about a client as if no other client existed |
| `ApiKeys.ApiKeyService.GetWithCache` | internal/service/apikey.go:57-75 | a live entry is returned and nothing changes; otherwise the repository's row is returned and cached, absence included; a repository error is returned and caches nothing |
| `ApiKeys.ApiKeyService.Validate` | internal/service/apikey.go:32-42 | a live entry alone decides, else the repository's row does; accepted exactly if active and of that scope or of both |
| `ApiKeys.ApiKeyService.Revoke` | internal/service/apikey.go:48-51 | the entry is forgotten even if the database then fails |
| `ApiKeys.ValidateIsARun` | internal/service/apikey.go:57-75 | a validation that nobody overlaps is the three steps check, fetch and store, with the effect of the method |
| `ApiKeys.RevokeIsARun` | internal/service/apikey.go:48-51 | a revocation that nobody overlaps is its two steps, with the effect of the method |
| `ApiKeys.EveryStateIsGrounded` | internal/service/apikey.go:57-81 | the invariant of every run: each cache entry and each fetched row is a row the repository held, not before the entry's time less thirty seconds and one delay |
| `ApiKeys.VerdictsAreFresh` | internal/service/apikey.go:33-81 | bounded staleness over all interleavings: every verdict rests on what the repository held at some moment less than thirty seconds and one fetch-to-store delay earlier |
| `ApiKeys.AcceptedKeysAreReal` | internal/service/apikey.go:33-81 | over all interleavings, an accepted key had less than thirty seconds and one delay earlier an active row whose scope fits |
| `ApiKeys.StrangersAreRefused` | internal/repository/postgres/apikey.go:23-38 | a key that no state so far has a row for is never accepted |
| `ApiKeys.AnswersAreKept` | internal/service/apikey.go:57-75 | unless stored again or invalidated, an answer, absence included, is kept for exactly thirty seconds: until then every call gets it without asking the repository, from then on every call asks |
| `ApiKeys.RevokedKeysAreRefused` | internal/service/apikey.go:33-81 | from that long after a key was deactivated no call accepts it |
| `ApiKeys.RevocationBoundIsTight` | internal/service/apikey.go:33-81 | with fetch-to-store delays of at most `lag`, some run accepts a key a given time after it was deactivated exactly if that time is less than thirty seconds and `lag` |
| `ApiKeys.LateStoreIsAccepted` | internal/service/apikey.go:48-81 | from every state in which a key is active and not cached, a fetch before and a store after a revocation keep the key accepted for thirty seconds from the store |
| `ApiKeys.CreatedKeysAreAccepted` | internal/service/apikey.go:33-81 | from thirty seconds and one fetch-to-store delay after a key was created, while it is active, a call accepts it exactly if the scope fits |
| `ApiKeys.NewKeysWork` | internal/repository/postgres/apikey.go:40-54 | the first call after a key was created is let in exactly if the key was created for its scope or for both |
| `ApiKeys.RevocationIsExact` | internal/repository/postgres/apikey.go:56-59 | deactivating a key changes no other key and no scope |
| `ApiKeys.RowsOnlyMoveForward` | internal/repository/postgres/apikey.go:40-59 | rows are never removed, never change scope and are never activated again |
| `ApiKeys.AcceptedAgainIff` | internal/service/apikey.go:48-81 | a deactivated key can still be accepted in some continuation exactly if a live cache entry or a call between fetch and store holds it as active |
| `ApiKeys.RevokedKeyStillAccepted` | internal/service/apikey.go:48-51 | from every state in which a key is active, a validation inside a revocation leaves the key accepted after the revocation has returned |
| `AdminSessions.AdminService.Login` | internal/service/admin.go:55-73 | a token is issued for eight hours exactly if login and password match and a token could be generated |
| `AdminSessions.AdminService.ValidateSession` | internal/service/admin.go:76-85 | true exactly for an unexpired entry, and an entry that fails is dropped |
| `AdminSessions.AdminService.CleanupSessions` | internal/service/admin.go:111-124 | the loop drops exactly the expired sessions |
| `AdminSessions.ValidIffIssued` | internal/service/admin.go:55-124 | over every history, a token is valid exactly if it was issued at most eight hours ago and not logged out since |
| `AdminSessions.UpkeepUnobservable` | internal/service/admin.go:76-124 | removing all cleanups and earlier validations from a history changes no answer |
| `AutoRefresh.RefreshLoop.CheckPeriod` | internal/service/refresh.go:65-83 | re-reading the same period changes nothing; another one stops the old ticker and starts a new one if positive |
| `AutoRefresh.RefreshLoop.Start` | internal/service/refresh.go:85-98 | the loop's state after any sequence of ticks, polls and a cancellation |
| `AutoRefresh.LoopFollowsItsReadings` | internal/service/refresh.go:50-100 | a ticker exists exactly while the loop runs and its last reading is positive, with that period; created minus stopped is one or zero accordingly; the refreshes are exactly the effective ticks |
| `AutoRefresh.RefreshesNeedAPeriod` | internal/service/refresh.go:76-92 | no refresh starts on a period that is not positive |
| `AutoRefresh.NothingAfterCancel` | internal/service/refresh.go:95-96 | once cancelled the loop does nothing more |
| `Domain.LookupIsByKey` | internal/repository/postgres/locate.go:26-44 | an LTE or GSM lookup matches a row exactly if the row has the cell's unique key |
| `Domain.WcdmaLookupIgnoresArea` | internal/repository/postgres/locate.go:46-54 | a WCDMA lookup matches exactly the rows that agree on all of the key but the area, and on the scrambling code |
| `Domain.WcdmaLookupFindsSomeArea` | internal/repository/postgres/locate.go:46-54 | so every row it finds has the key of the cell in some location area |
| `Domain.RadioIsTheFirstPart` | internal/service/locate.go:193-208 | LTE is looked at before GSM and GSM before WCDMA, and there is nothing to look at exactly if all three are missing |
| `Domain.RadioKeyIs` | internal/repository/postgres/update.go:31-61 | which values a row of each technology has in the columns of the unique index, by the server and by a session refresh |
| `Domain.KeysAreEqualIff` | migrations/updatedb/000001_create_tables.up.sql:54-55 | the unique index takes two rows for one exactly if their technology is spelled alike and they agree on technology, network, area and cell id |
| `Domain.LookupFindsIff` | internal/repository/postgres/locate.go:26-54 | a lookup finds a stored radio exactly if it is stored in upper case and they agree on network, area and cell id, for WCDMA on network, scrambling code and cell id |
| `Repositories.UpdateRepo.InsertCell` | internal/repository/postgres/update.go:26-66 | a cell is added only if no row has its key; a cell without a radio part is an error |
| `Repositories.UpdateRepo.InsertWifi` | internal/repository/postgres/update.go:68-81 | every report is appended |
| `Repositories.UpdateRepo.InsertIP` | internal/repository/postgres/update.go:83-96 | every report is appended, since nothing can conflict |
| `Repositories.TwoTowersTwoRows` | migrations/updatedb/000001_create_tables.up.sql:54-55 | reports of two new towers leave two rows, each as reported, unless they name the same cell; then the first is the one row |
| `Repositories.FetchPage` | internal/repository/postgres/update.go:116-131 | the result loop returns the rows from the offset on, up to the limit, in order |
| `Repositories.FirstWithAppend` | internal/repository/postgres/update.go:26-66 | appending rows never changes the row stored under a key that has one |
| `Repositories.CellTable.Upsert` | internal/repository/postgres/locate.go:107-133 | inserts, or rewrites coordinates, metro flag and source and nothing else of the row with that key |
| `Repositories.TowersDoNotOverwrite` | migrations/locatedb/000001_create_cells_and_wifis.up.sql:51-52 | in LocateDB the upsert of one tower changes another's coordinates only if they name the same cell |
| `Repositories.CellTable.Find` | internal/repository/postgres/locate.go:26-54 | nothing exactly if no row matches, else one of the matching rows |
| `Repositories.SpotTable.Upsert` | internal/repository/postgres/locate.go:135-153 | sets the coordinates of one name |
| `Repositories.LastCellRowWins` | internal/repository/postgres/locate.go:107-133 | after a list of cell upserts of which any may fail, each key has the coordinates, metro flag and source of its last row that succeeded and the tower columns of the row that was there first; other keys what they had |
| `Repositories.LastAcceptedRowWins` | internal/repository/postgres/locate.go:135-153 | after a list of wifi or ip upserts of which any may fail, each name has the coordinates of its last row that succeeded, other names what they had |
| `Repositories.LastRowWins` | internal/repository/postgres/locate.go:135-153 | when none fails, that is the last row of the name |
| `Repositories.ApplyingTwiceIsOnce` | internal/repository/postgres/locate.go:135-153 | the same list of upserts a second time changes nothing |
| `Repositories.AcceptedIsTheirNumber` | internal/service/refresh.go:109-115 | what is counted is the number of attempts that succeeded |
| `Refresh.PagingIsExact` | internal/service/refresh.go:102-166 | whatever is appended meanwhile, a refresh ends with the first fetch that fails or returns less than a full page; if it does not fail, the rows tried are exactly those this last fetch could see, so all that were there at the start; if it fails, exactly the full pages before it |
| `Refresh.Fetch` | internal/service/refresh.go:105-108 | one fetch: its page, and what is left of the refresh after it |
| `Refresh.RefreshService.RefreshCells` | internal/service/refresh.go:102-122 | LocateDB's cells are the successful upserts of that prefix in order, each row once, which `Repositories.LastCellRowWins` spells out per key; the total is their number |
| `Refresh.RefreshService.RefreshSpots` | internal/service/refresh.go:124-166 | the same for wifi and for ip, per name by `Repositories.LastAcceptedRowWins` |
| `Refresh.RefreshService.Refresh` | internal/service/refresh.go:24-44 | cells, then wifi, then ip; a table that cannot be read ends it and leaves the later tables untouched and uncounted |
| `Refresh.LoneRefreshKeepsCells` | internal/service/refresh.go:102-122 | a refresh of cells on its own leaves under every key it covers the coordinates, metro flag and source of the key's last covered row, and other keys alone |
| `Refresh.LoneRefreshKeepsLatest` | internal/service/refresh.go:124-166 | a refresh of wifi or ip on its own leaves for every name the coordinates of its last covered row, and other names alone |
| `Paging.TracksAppend` | internal/service/refresh.go:102-166 | rows appended in the middle of a refresh disturb none of what it has tried or fetched |
| `Paging.TracksUpsert` | internal/service/refresh.go:109-115 | the row tried next is the source's row right after those tried so far |
| `Paging.LoneJobIsTheLoop` | internal/service/refresh.go:102-166 | a refresh cut into single fetches and upserts that nobody interrupts tries the same rows in the same order, counts the same and ends the same as the loop of `RefreshService` |
| `CellPipeline.StepKeepsInv` | internal/service/refresh.go:102-122 | every atomic step keeps the three databases coherent |
| `CellPipeline.EveryRunIsCoherent` | internal/repository/postgres/locate.go:107-133 | in every state of every run, UpdateDB's keys are unique, LocateDB's row under each key the server writes is UpdateDB's row of that key, and every refresh in progress has tried a prefix in order |
| `CellAnswers.AnswerIsFirstWritten` | internal/service/locate.go:164-190 | an LTE or GSM lookup can return exactly one answer: the first-written UpdateDB row if it has been refreshed, else ExternalDB's |
| `CellAnswers.KnownAnswersNeverChange` | internal/service/locate.go:164-173 | once LocateDB answers for an LTE or GSM tower, every lookup of that tower that starts later gets the same answer, however its client receives the tower |
| `CellAnswers.AnswersAreOfTheFirstQuery` | internal/service/locate.go:164-190 | a lookup's two queries may be separated by any steps of others; its answers are those of the state of its first query |
| `CellAnswers.WriteBackPreservesAnswers` | internal/service/locate.go:174-189 | for an LTE or GSM cell no client has reported, every lookup of every run returns exactly ExternalDB's answer: before, during and after write-back and refresh, also when these fall between its two queries |
| `CellAnswers.SessionCellsAreNeverFound` | internal/service/session_admin.go:98-134 | a cell written by a session refresh changes no lookup's answer |
| `CellAnswers.WriteBacksAreCounted` | internal/service/async.go:17-27 | in every run the write-backs spawned are as many as the lookups ExternalDB answered, the live counter is never negative, and it is zero exactly when all have finished |
| `CellAnswers.WcdmaAnswersIff` | internal/repository/postgres/locate.go:46-54 | an unreported WCDMA cell gets ExternalDB's answer in all runs exactly if ExternalDB has no tower with the same network and cell id in another area at another place |
| `CellAnswers.WcdmaTwinIsMistaken` | internal/repository/postgres/locate.go:46-54 | for every ExternalDB and every such tower in it, the run that looks it up, writes it back and refreshes makes it the only answer for the cell, whatever ExternalDB has for the cell itself |
| `CellRefreshes.CleanRefreshCovers` | internal/service/refresh.go:102-122 | a refresh without a failed upsert has tried a prefix of UpdateDB, each row once and in order, counted them all, and LocateDB holds them all, whatever else ran; once done, the prefix has every row present at its start |
| `CellRefreshes.IndexIsDetermined` | internal/repository/postgres/locate.go:107-133 | what LocateDB holds under a key the server writes depends on nothing but UpdateDB's first row of it, whatever refreshes brought it there |
| `CellRefreshes.RefreshesAreConfluent` | internal/service/refresh.go:24-44 | two runs, each with a refresh without a failed upsert, hold the same row under every key that both refreshes cover with the same row, however refreshes overlapped |
| `CellRefreshes.FullRefreshesAreConfluent` | internal/service/refresh.go:24-44 | two runs with the same UpdateDB, each fully refreshed, hold the same keys and rows |
| `CellRefreshes.IndexedRowsAreServed` | internal/service/locate.go:164-173 | once LocateDB has an UpdateDB row's LTE or GSM key, that row is every later lookup's answer, and looking it up never reaches ExternalDB |
| `CellRefreshes.UpsertedRowsAreServed` | internal/service/refresh.go:109-115 | so it is from the row's first successful upsert on, whatever else that refresh does or fails to do |
| `CellRefreshes.CoveredRowsAreServed` | internal/service/refresh.go:102-122 | and so are all rows that a refresh without a failed upsert has tried |
| `CellRefreshes.FirstReportIsServed` | internal/repository/postgres/update.go:26-66 | for the first report of an LTE or GSM tower and any lookup with its key, in every later state: the report can be the lookup's answer exactly if LocateDB has the key, and then it is the only answer, with its coordinates and metro flag |
| `CellRefreshes.FirstReportIsServedOnceUpserted` | internal/service/refresh.go:109-115 | that is so from its first successful upsert on, by whatever refresh, begun whenever |
| `CellRefreshes.FirstReportIsServedOnceRefreshed` | internal/service/refresh.go:102-122 | and at the latest when a refresh without a failed upsert that began after the report is done |
| `CellRefreshes.LoneRefreshApplies` | internal/service/refresh.go:102-122 | a refresh that is the only writer leaves in LocateDB what the loop of `RefreshService` is proved to leave, with the same failures, while reports, lookups and write-backs go on |
| `SpotPipeline.SpotsComeFromReports` | internal/service/refresh.go:124-166 | in every state of every run each LocateDB entry is some report or session point of that name, and a clean refresh covered a prefix with all that was there at its start |
| `SpotPipeline.LoneRefreshRepairs` | internal/service/refresh.go:124-166 | from any state, a refresh that is the only writer has at every moment brought each name to its latest row among those it tried and that did not fail, other names being left alone, while clients keep reporting and other refreshes fail; once done it has tried all rows present at its start |
| `SpotPipeline.LastWriteStays` | internal/service/refresh.go:124-166 | whoever writes a name last, a refresh of UpdateDB or of a session, decides what LocateDB has for it |
| `SpotPipeline.LastWriterDecides` | internal/service/refresh.go:124-166 | however refreshes overlap, a name ends with the row at the position of the refresh that wrote it last: its newest report if no report of it comes after that position, and for names never reported twice at one place only then |
| `SpotPipeline.OverlapCanLoseTheNewest` | internal/service/refresh.go:124-166 | a run in which two clean refreshes overlap and an older report replaces a newer one |
| `Locate.ResolveIsFirst` | internal/service/locate.go:125-162 | a list misses exactly if all items do; else it resolves to an item before which all miss, error or hit |
| `Locate.LocateService.FindCellLocation` | internal/service/locate.go:164-208 | LocateDB, then on a miss ExternalDB; an ExternalDB hit spawns exactly one write-back, of that cell with that location, and nothing else spawns any |
| `Locate.LocateService.FindCell` | internal/service/locate.go:125-136 | the early-return loop is the first outcome that is not a miss, with exactly its queries and its write-back |
| `Locate.LocateService.FindSpot` | internal/service/locate.go:138-162 | the same for the Wi-Fi and the address list |
| `Locate.LocateService.SearchAfterCell` | internal/service/locate.go:80-122 | the decision table after the cell search; of a cell's location only the accuracy is ever written, so a running write-back is not disturbed |
| `Locate.LocateService.SearchBySource` | internal/service/locate.go:74-123 | the search refines the priority choice, makes exactly the queries of the specification, and its write-back holds ExternalDB's point |
| `Locate.LocateService.FindLocation` | internal/service/locate.go:46-72 | the answer carries the session id; one point is saved with the answer's coordinates and accuracy, labelled "external" whatever the source; a failed save changes nothing else; the write-back of an ExternalDB hit is spawned, and no other |
| `Locate.WaitGroupAdapter.Run` | internal/service/locate.go:181-187 | a task inserts the same row whenever it runs: it reads only the point of its location |
| `Locate.WaitGroupAdapter.Wait` | internal/service/async.go:17-27 | on return every task has finished, each ran once, and UpdateDB is what running them in some order leaves |
| `Locate.ReplayStoresEachTower` | internal/service/locate.go:181-187 | in whatever order they run, towers with a row keep it, and another tower has one afterwards exactly if a successful write-back was for it |
| `Locate.WriteBackIsTheHit` | internal/service/locate.go:178-189 | the cell written back is the one the request's search stopped at, with ExternalDB's point |
| `LocateAnswers.TaskRowIsWriteBackRow` | internal/service/locate.go:181-187 | the row a write-back inserts is that of the pipeline's write-back: ExternalDB's point, source "external", no type |
| `LocateAnswers.FusedIsAtMostWifi` | internal/service/locate.go:93-100 | whenever Wi-Fi confirms a cell the reported integer accuracy is between 1 and 100 |
| `LocateAnswers.LocatedAnswers` | internal/service/locate.go:74-123 | every located answer has the coordinates of exactly one source, with which accuracy, and Wi-Fi's exactly if there is no cell or a non-metro cell within five kilometres |
| `LocateAnswers.CellOutcomeIs` | internal/service/locate.go:164-208 | a cell's search errs exactly if the cell has no radio part, LocateDB fails, or LocateDB misses and ExternalDB fails; it misses exactly if both miss; an ExternalDB hit is never metro and of source "external" |
| `LocateAnswers.RequestFailsIff` | internal/service/locate.go:74-123 | by the items of the three lists: a request finds nothing exactly if all items miss, and errs for a list exactly if that list's first item that is not a miss is an error and no earlier list settled the request |
| `LocateAnswers.CellRequestIsAnswered` | internal/service/locate.go:80-107 | a request with a known cell is always answered: by the cell with accuracy 1000 if it is metro, or Wi-Fi is unknown or five kilometres away, else by Wi-Fi with the fused accuracy |
| `LocateAnswers.CellLessRequestIsAnswered` | internal/service/locate.go:108-120 | without a known cell it is answered by the first known access point, else by the first known address, with accuracy 100 |
| `LocateAnswers.FusedAccuracyJumps` | internal/geo/geo.go:39-53 | at most 900 metres or over 1100 metres apart the fused accuracy is 100; just over 900 it is 1 |
| `LocateAnswers.FusedAccuracyAtMostIff` | internal/geo/geo.go:49-53 | for circles that cross, exactly which distances give a reported integer accuracy of at most n |
| `LocateAnswers.QueriesAreMinimal` | internal/service/locate.go:74-162 | no query is made twice; none for Wi-Fi after a metro cell or a failed cell search; none for addresses unless both other searches missed |
| `LocateAnswers.QueriesIff` | internal/service/locate.go:74-173 | exactly which queries a request makes, for each item of its lists |
| `LocateAnswers.WriteBackIff` | internal/service/locate.go:164-190 | a request writes a cell back exactly if its search stops at that cell, LocateDB missed it and ExternalDB knows it |
| `LocateAnswers.MetroReportWins` | internal/service/locate.go:80-85 | end to end: after a first metro report of an LTE or GSM tower, in every state in which LocateDB has its key, a request whose search stops at a cell with that key gets the reported coordinates and accuracy 1000, whatever its other lists |
| `LocateAnswers.MetroReportWinsOnceUpserted` | internal/service/locate.go:80-85 | that is so from the report's first successful upsert on, by whatever refresh |
| `LocateAnswers.MetroReportWinsOnceRefreshed` | internal/service/locate.go:80-85 | and at the latest when a refresh without a failed upsert that began after the report is done |
| `Update.Validate` | internal/service/update.go:59-103 | accepts exactly the acceptable requests, and otherwise names the problem that is first in the order of the checks, with the first cell or address at fault |
| `Update.ProblemIsUnique` | internal/service/update.go:59-103 | no request has two problems in this sense, and an acceptable one has none |
| `Update.UpdateService.Process` | internal/service/update.go:22-36 | a session's point is saved once with the reported coordinates; failing to save does not stop the report |
| `Update.UpdateService.Insert` | internal/service/update.go:38-57 | cells, wifi, ip in order up to the first failure: everything before it stays, nothing after it is tried |
| `Update.ReportStopsAtFirstFailure` | internal/service/update.go:38-57 | a report succeeds exactly if no insert fails and else names the first failing list and position; exactly the inserts before it took effect, each wifi and ip row with its name and the reported coordinates |
| `Update.ReportedTowersStay` | internal/service/update.go:41-45 | a report of known towers adds no cell row |
| `Update.EveryTowerIsStored` | internal/service/update.go:41-45 | afterwards a tower has the row it had, or else one with this report's coordinates exactly if the report names it |
| `Update.ReportIsARun` | internal/service/update.go:41-45 | the cell inserts of a report are steps of the pipeline, so the theorems about all runs apply to reports |
| `Update.SpotReportIsARun` | internal/service/update.go:46-55 | and the wifi and ip inserts are steps of theirs, one row for each name |
| `SessionAdmin.SessionAdminService.RefreshFromSession` | internal/service/session_admin.go:50-96 | each table receives its eligible entries of all parseable points in order; failures are skipped and not counted; unreadable points write nothing |
| `SessionAdmin.SessionRefreshIsLastWriteWins` | internal/service/session_admin.go:57-95 | without failures each non-empty name gets the coordinates of the last point naming it, all other rows stay, every eligible entry is counted, and repeating it changes nothing |
| `SessionAdmin.SessionSpots` | internal/service/session_admin.go:78-93 | the wifi table gets the BSSIDs and the ip table the addresses of the stored requests, each with the coordinates of the last point that has it; others stay |
| `SessionAdmin.EntriesOfNames` | internal/service/session_admin.go:78-93 | each name that is not empty makes exactly one entry, in order |
| `SessionAdmin.SessionCells` | internal/service/session_admin.go:69-77 | the cell table gets each cell of the stored requests under its lower-case key with the coordinates of the last point that has it, not metro and without a source; others stay, and every upper-case key |

## Left out

- HTTP, routing, templates, CORS, cookies, configuration: input and output around the behaviour modelled here.
- SQL drivers, connections and JSON: tables are sequences and maps, a failing call is an input, and so is the
  result of parsing a stored request.
- Order of UpdateDB ids: rows are assumed to become visible in id order, as if every insert committed before
  the next one drew its id.
- Numbers: coordinates, distances and radii are reals, so rounding and NaN are not modelled; integers are
  unbounded, so the narrowing to 32 bits and overflow of durations are not modelled.
- The great-circle distance is any function without negative values, and the square root any function that
  is right where it is applied.
- bcrypt, random tokens and keys, UUIDs, `net.ParseIP` and the header parsing of `realIP`: their results are inputs.
- `Refresh.RefreshService.RefreshCells`: nothing else writes LocateDB's table inside the loop; writers in between
  are the subject of `CellPipeline` and `SpotPipeline`, where every fetch and upsert is a step of its own and the
  three tables of one refresh may even overlap.
- `Refresh.PagingIsExact`: all rows the source will ever have are given as one finite list, so a source that grows
  by a full page before every fetch for ever is not modelled.
- `Locate.LocateService.FindSpot`: `findWifi` and `findIP` are the same loop and are modelled once, as are
  `refreshWifis` and `refreshIPs`.
- Two goroutines on one `Location` object: modelled by which fields each side reads and writes, not by a memory model.
- Signal strength, channel, age and raw JSON columns of wifi and ip: no modelled operation reads them.
- Rows without coordinates, which fetches and wifi or ip lookups skip: the server writes none.
- `GetSettings`, `UpdateSettings`, `Generate`, `ListAll`, `List`, `GetPoints`, `UpdatePoint`: reads and writes of
  single rows; the settings in force are an input of each request.
