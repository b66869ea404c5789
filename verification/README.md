# Mindwtr server: a verified model

This project models the state-keeping part of the Mindwtr cloud server, the cloud client of
its MCP server, and four stand-alone algorithms of its CI scripts and input checks. Each
module names the source file it follows. Code that changes things in place is modelled by
classes and loops and proved against functions; the promises of the source are proved about
those functions, over every run, schedule, failing call or crash point.

| module | what it models |
|---|---|
| DurableStore | a disk with a visible and a durable state; durable publication, removal and directory creation |
| Capture | the two-object protocol of a capture with audio |
| WriteLock | the per-key promise queue as a state machine |
| Admission | requests of any number of processes over queues, shard locks and namespace admission |
| ConditionalPatch | read, compute, If-Match PATCH and retry, against the locked check |
| DataCache | the parsed and validated document caches over heap documents |
| RateLimit, AuthThrottle | the bounded maps of the two limiters |
| AttachmentPaths, AttachmentGc | attachment keys and the sweep of orphaned files, with other processes at work |
| SweepProtection | which stored files the sweep spares, for a document and its references |
| PurgeKeys | attachment keys in a project purge |
| Validation | the integrity check of a document |
| RequestBody | reading a body under a size limit |
| CalendarDates | the dates a recurrence may end on |
| JpegScan | the JPEG marker scan |
| AuditReach | the audit report check |
| PlayEdit | the publication of a release in one Google Play edit |
| Options, InsertionMaps, JsText | an option type, ECMAScript maps, and trim and split |

## Where the code falls short

Each point is a lemma with the input or the exact condition.

- A sweep deletes the stored file of a recording that a live attachment references. The file lies
  at the key without `attachments/`; the set of references holds the key with it. A stored file
  is taken for an orphan exactly when its own path is not among the references
  (`SweepProtection.OrphanExactlyWhenPathIsUnreferenced`), and when the recording's key is the
  only reference, exactly when that key has the prefix
  (`SweepProtection.OnlyReferenceProtectsExactlyUnprefixed`). The comment at
  apps/cloud/src/server-config.ts:147-148 says that every key reaching the server has it, so this
  is not limited to captures (`SweepProtection.ReferencedRecordingIsSwept`, `SweepProtection.RecordingGoes`).
- A sweep can remove a file uploaded that very moment. Uploads take no lock, so one by another
  process may replace an old file between the sweep's lstat and its unlink
  (`AttachmentGc.UploadMeanwhileGoes`, `AttachmentGc.FreshUploadGoes`). The file that goes is past
  its grace period exactly when nobody has put another at its name since the lstat
  (`AttachmentGc.PastGraceUnlessReplaced`).
- A sweep reports a clean pass while a collectable entry stays. Of the collectable entries an
  undisturbed sweep leaves exactly the links to nothing at their paths (`AttachmentGc.GarbageCollectOrphanAttachments`,
  `AttachmentGc.PathStaysExactlyWhenDangling`; a run: `AttachmentGc.DeadLinkStays`). In general the
  removal passes over an entry that is there exactly when its existence test fails or meets such a
  link (`AttachmentGc.PassedOverExactlyWhenTestSaysNo`; a run with a failing test:
  `AttachmentGc.FailedTestStays`).
- Cached and uncached loads can differ. An answer from the document a write kept agrees with an
  uncached load exactly when every area written has both dates; one from the document an earlier
  load kept, exactly when every area has a date or no time has passed; where a copy could not be
  made the load goes past the cache and agrees (`DataCache.WriteThenLoad`, `DataCache.LoadThenLoad`,
  with a failing run each: `DataCache.OneDateDiffersAfterWrite`, `DataCache.UndatedAreaDiffersAfterLoad`).
  Most writes are finalized first, which refuses areas without both dates, so the second way is the likelier.
- The limiter outgrows its bound exactly when a new key arrives, no window has passed and the least
  recently used key is the empty string (`RateLimit.OutgrowsExactlyWhen`; a run:
  `RateLimit.EmptyKeyOutgrows`). The server's own keys are never empty.
- The MCP throttle's comment says that the oldest window is dropped at capacity; the code drops
  the first-inserted key. That is a window oldest of all exactly when no other resets earlier
  (`AuthThrottle.DropsOldestExactlyWhen`). A run in which the youngest of 5000 windows is dropped,
  because its key came first and was renewed: `AuthThrottle.YoungestIsDropped`.
- A compact UNTIL that ends in a small z passes the case-insensitive pattern and is then
  always refused (`CalendarDates.CompactTimesAreTheSame`, `CalendarDates.SmallZIsRefused`).
- An interrupt during a publication leaves the Google Play edit behind: only an Exception
  is followed by a deletion (`PlayEdit.InterruptLeavesEdit`). So does an ordinary Exception when the
  answer to the creation is lost or carries no usable id, for then no id is known to delete
  (`PlayEdit.LostCreationLeavesEdit`). When exactly an edit is left, for whatever the requests are
  answered: `PlayEdit.Publisher.PublishRelease`.
- Two unpurged projects with one id: purging one schedules a file that stays referenced exactly
  when the other has a live attachment at a scheduled key (`PurgeKeys.UnreferencedExactlyWhenNoTwinNeeds`).
- Sections with one id: the last one listed says in which project a task must be, but any live one
  lets it be there (`Validation.DuplicateSectionDecides`).

## Model

| member | source | states |
|---|---|---|
| `DurableStore.CanHoldIsExact` | apps/cloud/src/server-storage.ts:505-569 | The states a crash may leave an entry in, read off the unsynced bindings and contents, are exactly those some restart can show |
| `DurableStore.CrashIsAllOrNothing` | apps/cloud/src/server-storage.ts:505-569 | A crash anywhere in a publication leaves the destination with all the new bytes or with what a crash before it could have left |
| `DurableStore.DurableSurvivesCrash` | apps/cloud/src/server-storage.ts:535-552 | Contents acknowledged as durable are there after every crash |
| `DurableStore.KeptIsNoWorse` | apps/cloud/src/server-storage.ts:505-569 | An entry a publication only passed by reads the same and is no less safe than before |
| `DurableStore.FileSystem.SyncDirectory` | apps/cloud/src/server-storage.ts:241-260 | Success means the directory was synced; a failure leaves the entries as they were or synced |
| `DurableStore.FileSystem.DurablyPublishFile` | apps/cloud/src/server-storage.ts:505-569 | Every state passed, under every failing, half-done or torn call, keeps the destination all old or all new; true means the new bytes are durable; false, or a throw before the rename, the check before it included, leaves it unchanged; no other entry is harmed; without faults the check alone decides and no stage is left behind |
| `DurableStore.FileSystem.PreparePublication` | apps/cloud/src/server-storage.ts:633-674 | Reserves a stage of its own and changes nothing else; an unsafe target, a taken name or a failing call yields none |
| `DurableStore.FileSystem.PublishPrepared` | apps/cloud/src/server-storage.ts:719-744 | The same all-or-nothing law with the identity and storage-root checks, each of which may hold, differ or throw: true only when every check held, and then durable; a false or a throw before the rename changes nothing; without faults the checks alone decide between true, false and the two throws |
| `DurableStore.FileSystem.AbandonPublication` | apps/cloud/src/server-storage.ts:696-717 | Closes and removes the stage only, and leaves a published destination as durable as it was |
| `DurableStore.FileSystem.WriteDataThrough` | apps/cloud/src/server-storage.ts:807-847 | Through a publication of the caller's: a return means durable new contents, a refused publication throws, and a throw before the rename leaves the document unchanged |
| `DurableStore.FileSystem.WriteData` | apps/cloud/src/server-storage.ts:807-847 | Prepare, publish, abandon: a return means durable new contents, anything else throws, and a throw before the rename leaves the document unchanged; without faults no stage is left behind |
| `DurableStore.FileSystem.DurablyRemove` | apps/cloud/src/server-storage.ts:281-309 | Acknowledged removals are durable, also for an entry an earlier, unsynced attempt had already made invisible; a link to nothing passes for absent and stays; nothing else is touched in any state passed |
| `DurableStore.FileSystem.EnsureDirectoryWithinRoot` | apps/cloud/src/server-storage.ts:327-366 | With create, success means every segment is a directory no crash can take away, also those an earlier interrupted call or another process left unsynced; false means a segment is no directory or leads outside; unobstructed and without faults it succeeds, other processes making directories at the same time or not; without create nothing changes |
| `Capture.ScanIsTruthful` | apps/cloud/src/server-capture.ts:417-446 | The canonical scan answers referenced only for a reference that is there, and unreferenced only for a readable document without one |
| `Capture.ConsistentMeans` | apps/cloud/src/server-capture.ts:353-391 | The invariant as readers see it: a visible or recovered document that references the audio implies the audio is there |
| `Capture.CaptureRoute.StoreCaptureAudio` | apps/cloud/src/server-capture.ts:474-501 | Success means durable audio; in every state passed the document does not mention it yet |
| `Capture.CaptureRoute.WriteDocument` | apps/cloud/src/server-capture.ts:370-376 | Success means a durable document beside durable audio; when it throws, even after its rename, the invariant holds in every state passed |
| `Capture.CaptureRoute.RemoveOrphanedCaptureAudio` | apps/cloud/src/server-capture.ts:398-461 | The outcome is fixed by the root checks and the scan of the visible document: the removal is attempted only when that document was read and does not reference the key, and then without faults the audio is gone; otherwise it stays durable; the document is not touched |
| `Capture.CaptureRoute.HandleCapture` | apps/cloud/src/server-capture.ts:353-391 | Over every failing call and crash point of the locked capture a document that references the key implies durable audio; stored means both are durable; refusals change nothing; undisturbed it succeeds |
| `WriteLock.StepKeepsInv` | apps/cloud/src/server-storage.ts:1114-1147 | Every event of the runner keeps the invariant of chains, map and start order |
| `WriteLock.MutualExclusion` | apps/cloud/src/server-storage.ts:1114-1147 | Over every schedule at most one handler per key runs |
| `WriteLock.StartsInCallOrder` | apps/cloud/src/server-storage.ts:1114-1147 | Handlers of a key start in call order, each after all earlier calls have settled |
| `WriteLock.AbortedNeverRuns` | apps/cloud/src/server-storage.ts:1117-1134 | A handler aborted before its turn is never started, whatever happens later |
| `WriteLock.StepLowersRank` | apps/cloud/src/server-storage.ts:1129-1142 | Without new calls only finitely many events remain |
| `WriteLock.UnfinishedKeyIsEnabled` | apps/cloud/src/server-storage.ts:1129-1136 | A failed or aborted handler never blocks its successors: every unfinished key has an enabled event of its own |
| `WriteLock.SettlesCompletely` | apps/cloud/src/server-storage.ts:1136-1148 | Any state can run to the end, however handlers end: all tails settle, every due handler has run, and the lock map is empty |
| `WriteLock.QuietMeansNoLocks` | apps/cloud/src/server-storage.ts:1138-1142 | When every tail has been swept the lock map is empty |
| `Admission.StepKeepsLocks` | apps/cloud/src/server-storage.ts:887-956 | Every step of every request keeps the discipline of queues and shard locks |
| `Admission.InsideIsExclusive` | apps/cloud/src/server-storage.ts:887-956 | At most one request over all processes is inside a lock key |
| `Admission.HoldersDoNotWait` | apps/cloud/src/server-request.ts:128-141 | A request that holds a shard lock waits for no other lock: a fact about the places a request can be in |
| `Admission.QueuesAreFifo` | apps/cloud/src/server-storage.ts:1114-1137 | A queue only loses its head or gains the caller at its end |
| `Admission.WaitersAreServed` | apps/cloud/src/server-storage.ts:887-956 | Behind every waiting request stands one with an enabled step of progress, also when the admission key and namespace keys share a shard |
| `Admission.StepLowersRank` | apps/cloud/src/server-storage.ts:887-956 | Without new arrivals, aborts and handlers that ask again, only finitely many steps remain: each lowers a natural number |
| `Admission.EveryRequestGetsThrough` | apps/cloud/src/server-storage.ts:887-956 | Any state of any requests and processes can run to the end with nobody giving up, after which all requests are done and all queues and shard locks free |
| `Admission.WritersAreAdmitted` | apps/cloud/src/server.ts:1159-1206 | Of the routes as listed, every one that may create a namespace's files is guarded and reserves the namespace first |
| `Admission.StepKeepsCap` | apps/cloud/src/server-request.ts:126-148 | Each step keeps the count within the bound, with the first existence check outside the lock |
| `Admission.NamespaceCap` | apps/cloud/src/server-request.ts:74-84 | Over every interleaving of requests of all routes and processes the namespaces never exceed the larger of the initial count and the cap, and none is lost |
| `Admission.CountTokenNamespaces` | apps/cloud/src/server-request.ts:21-32 | The loop counts each namespace once, whether it has a document, a directory or both |
| `Admission.ExistsButNotCounted` | apps/cloud/src/server-request.ts:17-32 | A name exists without being counted exactly when all its entries are of the wrong kind |
| `ConditionalPatch.StrongComparison` | apps/cloud/src/server.ts:439-442 | For every header the client can send, commas inside included, If-Match accepts the server's tag if and only if it is that tag |
| `ConditionalPatch.AcceptedMeansSame` | apps/cloud/src/server.ts:422-442 | With an injective digest a tag read with one entity is accepted for another if and only if they are equal |
| `ConditionalPatch.Server.Get` | apps/cloud/src/server.ts:531-538 | Answers with the first live entity of the id and the tag of that entity |
| `ConditionalPatch.Server.Patch` | apps/cloud/src/server.ts:540-575 | Takes effect only on the entity found, only if its tag is accepted at that instant, and then stores what the route makes of the document; a 412 changes nothing; it succeeds exactly when nothing stands in the way |
| `ConditionalPatch.Client.ReadEntity` | apps/mcp-server/src/cloud-service.ts:196-216 | Yields the stored entity with its own strong tag, and nothing when the tag is lost or weak |
| `ConditionalPatch.Client.Attempt` | apps/mcp-server/src/cloud-service.ts:225-260 | One round applies at most one update, computed from the attachments stored at the instant of its PATCH; another round follows only a 412 that applied nothing; a quiet round succeeds |
| `ConditionalPatch.Client.ConditionalAttachmentPatch` | apps/mcp-server/src/cloud-service.ts:218-262 | Under any writes between its requests and any lost answers: at most one update takes effect, computed from the attachments stored then; a returned update took effect; giving up means three 412 answers and nothing applied |
| `DataCache.FixedExactlyWhenStamped` | apps/cloud/src/server-storage.ts:755-775 | A load gives a document back as stored if and only if every area carries both its dates |
| `DataCache.SteadyExactlyWhenOneDate` | apps/cloud/src/server-storage.ts:755-775 | Loads at two times give the same document if and only if every area carries one of its dates |
| `DataCache.WriteThenLoad` | apps/cloud/src/server-data-cache.ts:150-206 | After a write, whichever copies can be made: every load's answer, and that it agrees with an uncached load if and only if it comes from the file, from the write with both dates on every area, or from a load with a date on every area or at the same time |
| `DataCache.LoadThenLoad` | apps/cloud/src/server-data-cache.ts:150-166 | The same for loads of a file put there from outside |
| `DataCache.CopiesMade` | apps/cloud/src/server-data-cache.ts:97-166 | When all copies can be made, the document kept by a write answers every load, and else the first load all later ones |
| `DataCache.TrimCache` | apps/cloud/src/server-data-cache.ts:72-78 | Keeps the last 64 keys in order and drops nothing else, unless an empty key is met |
| `DataCache.Remember` | apps/cloud/src/server-data-cache.ts:80-83 | The promoted entry comes last, the bound holds, and every entry kept is unchanged |
| `DataCache.Cache.LoadForWrite` | apps/cloud/src/server-data-cache.ts:150-166 | Hands out a fresh copy the cache does not own; reports unreadable exactly when an uncached load does; a hit gives the kept copy's contents, a miss the uncached load's; either way the entry ends as the most recent one |
| `DataCache.Cache.RememberParsed` | apps/cloud/src/server-data-cache.ts:111-124 | Keeps a copy of its own under the file's present identity as the most recent entry, or forgets the entry when there is no file or no copy |
| `DataCache.Cache.RememberValidated` | apps/cloud/src/server-data-cache.ts:187-195 | Records the present identity of a vetted file |
| `DataCache.Cache.IsTrusted` | apps/cloud/src/server-data-cache.ts:85-95 | A trusted file is one whose present contents were validated or written by the server |
| `DataCache.Cache.WriteCloudData` | apps/cloud/src/server-data-cache.ts:197-206 | After a failed write, before or after its rename, the entry is gone; after a success the cache holds a copy of what was written, and the file is vetted |
| `DataCache.Run` | apps/cloud/src/server-data-cache.ts:97-206 | Any run of loads, edits of handed-out documents, writes, outside replacements and deletions: loads report unreadable files exactly as uncached loads do, and with dated areas return the very same document |
| `DataCache.OneDateDiffersAfterWrite` | apps/cloud/src/server-data-cache.ts:197-206 | A failing run: an area with one date, written and loaded back |
| `DataCache.UndatedAreaDiffersAfterLoad` | apps/cloud/src/server-data-cache.ts:150-166 | A failing run: an area without dates, put there from outside and loaded twice |
| `RateLimit.RateLimiter.Prune` | apps/cloud/src/server-rate-limit.ts:34-40 | Removes exactly the windows that have passed, in place and in order |
| `RateLimit.RateLimiter.FindLeastRecentlyUsedKey` | apps/cloud/src/server-rate-limit.ts:42-57 | Finds the victim of the specification |
| `RateLimit.RateLimiter.EnsureCapacity` | apps/cloud/src/server-rate-limit.ts:59-66 | Prunes, then evicts one victim after the other while full |
| `RateLimit.RateLimiter.Check` | apps/cloud/src/server-rate-limit.ts:68-88 | New states and answer are those of the specification |
| `RateLimit.VictimIsLeast` | apps/cloud/src/server-rate-limit.ts:42-57 | The victim has the least (lastSeenAt, resetAt) and is the earliest inserted of equals |
| `RateLimit.EvictionSparesTheRecent` | apps/cloud/src/server-rate-limit.ts:59-66 | Nothing kept by an eviction is older than anything it removed |
| `RateLimit.OutgrowsExactlyWhen` | apps/cloud/src/server-rate-limit.ts:59-88 | A check exceeds the bound exactly when a new key arrives, no window has passed and the least recently used key is the empty string |
| `RateLimit.EmptyKeyOutgrows` | apps/cloud/src/server-rate-limit.ts:61-65 | A run of two hits after which a limiter for one key holds two |
| `RateLimit.StaysBounded` | apps/cloud/src/server-rate-limit.ts:59-88 | Over any run without an empty key the map never exceeds its bound |
| `RateLimit.LimiterRefines` | apps/cloud/src/server-rate-limit.ts:68-88 | With keys that fit, every answer is that of one window per key opened by the key's own hits |
| `RateLimit.PrunesAndOthersDoNotMatter` | apps/cloud/src/server-rate-limit.ts:34-40 | Runs with the same hits of a key, whatever prunes and other keys they contain, answer its next hit alike |
| `RateLimit.SlidingBound` | apps/cloud/src/server-rate-limit.ts:68-88 | No closed interval as long as the window admits more than twice the limit for a key |
| `RateLimit.WaitingFindsFreshWindow` | apps/cloud/src/server-rate-limit.ts:74-86 | A key that stays away for its Retry-After opens a fresh window, whatever happens to other keys, evictions included |
| `RateLimit.RetryAfterIsLeast` | apps/cloud/src/server-rate-limit.ts:74-79 | Retry-After is the least whole number of seconds that reaches the end of the window, and at least one |
| `AuthThrottle.Throttle.CountFailure` | apps/mcp-server/src/http-server.ts:175-188 | Counts one failure in the key's window and makes room by passed windows, then by the first-inserted key |
| `AuthThrottle.Throttle.CountFailures` | apps/mcp-server/src/http-server.ts:171-194 | The answer is none exactly when no key is over the limit, and otherwise the longest wait among those that are |
| `AuthThrottle.StaysBounded` | apps/mcp-server/src/http-server.ts:180-188 | No call takes the throttle over 5000 keys |
| `AuthThrottle.FullThrottleDropsFirst` | apps/mcp-server/src/http-server.ts:184-186 | With no passed window a new key costs the first-inserted key and no other |
| `AuthThrottle.DropsOldestExactlyWhen` | apps/mcp-server/src/http-server.ts:184-186 | What a full throttle drops is a window oldest of all if and only if no kept window resets before that of the first-inserted key |
| `AuthThrottle.YoungestIsDropped` | apps/mcp-server/src/http-server.ts:174-188 | A run of failures, from an empty throttle, whose last drops the key that would have reset last of all |
| `AuthThrottle.ThrottleRefines` | apps/mcp-server/src/http-server.ts:168-195 | While the keys seen fit, every key has exactly the window its own failures make |
| `AuthThrottle.CallIsRun` | apps/mcp-server/src/http-server.ts:174-192 | A call with several keys is the run of its failures one after the other |
| `AttachmentPaths.NormalizeIsStable` | apps/cloud/src/server-storage.ts:437-451 | A normalized key holds allowed characters and acceptable segments only, and normalizing it again changes nothing |
| `AttachmentPaths.NormalFormsAre` | apps/cloud/src/server-storage.ts:437-451 | The keys that are their own normal form are exactly the short enough paths of acceptable segments |
| `AttachmentPaths.PrefixChangesNormalForm` | apps/cloud/src/server-capture.ts:467-470 | A captured key has the normal form of its storage path if and only if it does not start with attachments/ |
| `SweepProtection.OrphanExactlyWhenPathIsUnreferenced` | apps/cloud/src/server-attachments.ts:182-189 | For every document and captured key: the sweep takes the stored file for an orphan if and only if its path is not among the keys referenced |
| `SweepProtection.OnlyReferenceProtectsExactlyUnprefixed` | apps/cloud/src/server-capture.ts:463-470 | When the captured key is the only reference, its file is an orphan to the sweep if and only if the key starts with attachments/ |
| `SweepProtection.ReferencedRecordingIsSwept` | apps/cloud/src/server-attachments.ts:118-221 | After a clean pass, now or after a crash, no path leads any more to a recording of such a key that was past its grace period |
| `SweepProtection.RecordingGoes` | apps/cloud/src/server-attachments.ts:118-221 | A run of the whole sweep that removes the recording a document references |
| `AttachmentGc.MeanwhileKeeps` | apps/cloud/src/server-attachments.ts:304-380 | Whatever other processes put, make, drop or sync between two calls of the sweep keeps its books balanced, and leaves a name bound to what it was, to nothing, or to something new |
| `AttachmentGc.UnlinkedKeeps` | apps/cloud/src/server-storage.ts:281-309 | For everything others do before the existence test and before the unlink: what goes is the file seen, or an upload that came since; anything but an error leaves the name settled |
| `AttachmentGc.Sweep.Unlink` | apps/cloud/src/server-storage.ts:281-309 | Outcome and new books are those of the specification, for every fault and every act of others at its two calls |
| `AttachmentGc.Sweep.RemoveDirectory` | apps/cloud/src/server-storage.ts:281-309 | The same for a directory, with not empty as an outcome that is no error |
| `AttachmentGc.Sweep.VisitFile` | apps/cloud/src/server-attachments.ts:180-199 | Each file is scanned once and adds one to exactly one count: kept if it may not go at the time read, deleted if this sweep removed it, else an error or one that was not there; without a new error its name is settled |
| `AttachmentGc.Sweep.Visit` | apps/cloud/src/server-attachments.ts:148-217 | A directory walked without a new error is finished: whatever its names may be bound to, now or after a crash, is new, not collectable or overlooked, earlier unpublished removals included; undisturbed, it works without errors and leaves no directory in it empty |
| `AttachmentGc.Sweep.GarbageCollect` | apps/cloud/src/server-attachments.ts:118-221 | Scanned files are kept, deleted, failed or not there; an empty error list means a finished tree; undisturbed, the list is empty |
| `AttachmentGc.GarbageCollectOrphanAttachments` | apps/cloud/src/server-attachments.ts:118-221 | For every tree, every failing call and every act of others: a file there at the start that is missing, and that others did not take, was unreferenced and past its grace period at a time read; an empty error list means a finished tree; undisturbed, the list is empty and the collectable entries left at their paths are exactly the links to nothing |
| `AttachmentGc.OnlyOrphansGo` | apps/cloud/src/server-attachments.ts:181-189 | Of the files there at the start the sweep takes away unreferenced ones past their grace period only, and no links to nothing |
| `AttachmentGc.PastGraceExactlyWhenSeen` | apps/cloud/src/server-attachments.ts:181-189 | For every removal: the path was unreferenced and a file past its grace period was seen there; the file that went was past it if and only if it is the one seen |
| `AttachmentGc.PastGraceUnlessReplaced` | apps/cloud/src/server-attachments.ts:185-195 | For every act of others and every fault at the two calls of a removal: the file that goes is past its grace period if and only if none of those acts put another at its name |
| `AttachmentGc.UploadMeanwhileGoes` | apps/cloud/src/server-attachments.ts:185-195 | In every state, an upload between the existence test and the unlink is removed and counted as deleted |
| `AttachmentGc.FreshUploadGoes` | apps/cloud/src/server-attachments.ts:185-195 | A run in which the sweep deletes a file written at the very time it has read |
| `AttachmentGc.CleanMeansCollected` | apps/cloud/src/server-attachments.ts:201-216 | After a reported clean pass a file that any path leads to, now, after later acts of others or after any crash, came during the sweep, was not collectable at its start, or was overlooked |
| `AttachmentGc.OverlookedLooksAbsent` | apps/cloud/src/server-storage.ts:287-296 | What an existence test that worked overlooked is a link to nothing |
| `AttachmentGc.DanglingLinksStay` | apps/cloud/src/server-storage.ts:287-296 | No sweep removes a link to nothing |
| `AttachmentGc.StaysExactlyWhenDangling` | apps/cloud/src/server-attachments.ts:201-216 | In a finished directory a collectable entry that others and failing tests left alone is still there if and only if it is a link to nothing |
| `AttachmentGc.PathStaysExactlyWhenDangling` | apps/cloud/src/server-attachments.ts:201-216 | After a clean pass that others and failing tests left alone, a path to an entry collectable at the start still leads to it if and only if that is a link to nothing |
| `AttachmentGc.PassedOverExactlyWhenTestSaysNo` | apps/cloud/src/server-storage.ts:287-296 | For every state and act of others: a removal says absent of an entry that is there if and only if its existence test fails or meets a link to nothing |
| `AttachmentGc.DeadLinkStays` | apps/cloud/src/server-attachments.ts:118-221 | A run of the whole sweep: a clean report, and the link to nothing it should have collected is there |
| `AttachmentGc.VisitWithFailingTest` | apps/cloud/src/server-attachments.ts:193-199 | In any state a collectable file whose existence test fails stays, with no error and nothing counted as deleted |
| `AttachmentGc.FailedTestStays` | apps/cloud/src/server-attachments.ts:148-217 | A run of the calls for a root with one old file: no error, the root finished, the file there |
| `PurgeKeys.CollectRetained` | apps/cloud/src/server-attachments.ts:42-59 | Collects exactly the keys held by unpurged owners other than the project |
| `PurgeKeys.CollectReferenced` | apps/cloud/src/server-attachments.ts:99-116 | Collects exactly the keys of live attachments of unpurged owners |
| `PurgeKeys.CollectPending` | apps/cloud/src/server-attachments.ts:61-75 | Schedules exactly the project's keys that are not retained, each once |
| `PurgeKeys.AppendPending` | apps/cloud/src/server-attachments.ts:77-97 | Gives the settings with the merged list, unchanged when there is nothing to append |
| `PurgeKeys.AppendedKeys` | apps/cloud/src/server-attachments.ts:82-95 | After appending, each key of either list appears exactly once |
| `PurgeKeys.AppendKeepsExisting` | apps/cloud/src/server-attachments.ts:83-89 | The last existing entry of a key is never overwritten by a new one |
| `PurgeKeys.AppendIsIdempotent` | apps/cloud/src/server-attachments.ts:77-97 | Appending a list twice is appending it once |
| `PurgeKeys.PurgeProject` | apps/cloud/src/server.ts:897-915 | The purge schedules the keys of the updated project that nobody else retains |
| `PurgeKeys.ScheduledIsUnreferenced` | apps/cloud/src/server.ts:897-915 | With no second unpurged project of the same id no scheduled key is referenced after the purge |
| `PurgeKeys.UnreferencedExactlyWhenNoTwinNeeds` | apps/cloud/src/server-attachments.ts:42-75 | For every document and project purged: no scheduled key stays referenced if and only if no other unpurged project of the same id has a live attachment at one |
| `PurgeKeys.UnreferencedExactlyWhenOnlyOne` | apps/cloud/src/server-attachments.ts:42-75 | Over all attachments: nothing scheduled can stay referenced if and only if there is no other unpurged project of that id |
| `Validation.ValidateAppData` | apps/cloud/src/server-validation.ts:47-405 | Accepts exactly the documents of the quantified predicate: shapes, limits, dates, task and project property values, and references between live entities |
| `Validation.CheckSections` | apps/cloud/src/server-validation.ts:235-254 | Live sections are in live projects; afterwards the map holds the last section of each id and the set the ids of live ones |
| `Validation.CheckTaskHome` | apps/cloud/src/server-validation.ts:256-285 | A live task's project is live, and its section is live or excused and lies in that project |
| `Validation.CheckHomes` | apps/cloud/src/server-validation.ts:223-299 | The same for all tasks, with and without a list of sections |
| `Validation.CheckAreaReferences` | apps/cloud/src/server-validation.ts:348-363 | Live entities name live areas or none |
| `Validation.CheckSettings` | apps/cloud/src/server-validation.ts:365-402 | Pending deletions are well-formed and within their limits |
| `Validation.AcceptedTaskHasOneHome` | apps/cloud/src/server-validation.ts:264-284 | With unique section ids an accepted live task is in the one section of its id, in that section's project, and the project is live |
| `Validation.DuplicateSectionDecides` | apps/cloud/src/server-validation.ts:247-283 | When an id is listed again, a live task of it is accepted if and only if it is in the live project the last one names, and any section of the id is live or the archive exception holds for the last |
| `Validation.EarlierDuplicateHelpsOnlyAlive` | apps/cloud/src/server-validation.ts:247-283 | A last, deleted section is excused by an earlier one of its id if and only if that one is live and the last names the task's project |
| `Validation.AbsentSectionsMeanNone` | apps/cloud/src/server-validation.ts:286-299 | Without a list of sections no live task of an accepted document names one |
| `CalendarDates.YearIsUnique` | apps/mcp-server/src/input-validation.ts:119-122 | The year read from a day is the one year that contains it |
| `CalendarDates.FieldsAreReal` | apps/mcp-server/src/input-validation.ts:119-122 | The fields read from any day make a real Gregorian date |
| `CalendarDates.DayComesBack` | apps/mcp-server/src/input-validation.ts:119-122 | A day made from its own fields is that day |
| `CalendarDates.RealDateComesBack` | apps/mcp-server/src/input-validation.ts:119-122 | A real date set on a Date reads back unchanged |
| `CalendarDates.SettlesExactlyWhenReal` | apps/mcp-server/src/input-validation.ts:119-122 | Setting and reading back agree if and only if the date is a real proleptic Gregorian date, for all years |
| `CalendarDates.MonthTable` | apps/mcp-server/src/input-validation.ts:119-122 | The month starts are those of the table of ECMA-262 |
| `CalendarDates.IsValidRecurrenceUntil` | apps/mcp-server/src/input-validation.ts:114-126 | Accepts exactly the texts of the pattern that name a real date and, with a time, one in range that parses |
| `CalendarDates.IsValidRRuleUntil` | apps/mcp-server/src/input-validation.ts:128-135 | Accepts exactly the compact texts of a real date and, with a time, one in range and without a small z |
| `CalendarDates.CompactDatesAreTheSame` | apps/mcp-server/src/input-validation.ts:128-135 | Eight digits are accepted if and only if the dashed date is, which is if and only if the date is real |
| `CalendarDates.CompactTimesAreTheSame` | apps/mcp-server/src/input-validation.ts:128-135 | With a time the compact form is accepted if and only if the dashed form is and the Z, if any, is a capital |
| `CalendarDates.SmallZIsRefused` | apps/mcp-server/src/input-validation.ts:128-135 | Nothing that ends in a small z is accepted |
| `CalendarDates.SmallLettersMatch` | apps/mcp-server/src/input-validation.ts:129-130 | The compact pattern itself lets a small z through |
| `JpegScan.JpegDimensions` | scripts/ci/prepare-google-play-listing-assets.py:77-132 | Terminates on every byte string without reading outside it, with the size the scan function finds |
| `JpegScan.ReportsFirstFrame` | scripts/ci/prepare-google-play-listing-assets.py:98-130 | For every list of other segments, fill bytes, standalone markers and skipped bytes before a frame header it reports exactly the header's width and height |
| `JpegScan.ReportedIsLaidOut` | scripts/ci/prepare-google-play-listing-assets.py:98-130 | It reports a size for no other file |
| `AuditReach.ReachesExactlyWhenCaused` | scripts/ci/validate-mobile-npm-audit.js:73-82 | On every finite graph, cycles included, the search is true if and only if a dependency path to image-size exists |
| `AuditReach.AdvisoryIdIsExact` | scripts/ci/validate-mobile-npm-audit.js:8-18 | The id taken from a URL is the only one the pattern fits |
| `AuditReach.ValidateMobileAuditReport` | scripts/ci/validate-mobile-npm-audit.js:20-91 | Accepts exactly the well-formed reports whose advisories are the expected ones, all on image-size, whose edges are closed and whose packages all lead to image-size |
| `AuditReach.AcceptedIsCausedByTarget` | scripts/ci/validate-mobile-npm-audit.js:84-90 | In an accepted report image-size is listed, and every entry has a path of listed packages to it |
| `PlayEdit.Play.Send` | scripts/ci/google-play-edit.py:73-182 | The error is that of the reply, and a commit succeeds only with a reply that names its edit; without an error the request took effect, with one it may have; only a commit changes the store, and only to the contents of its edit |
| `PlayEdit.Publisher.SendImages` | scripts/ci/google-play-edit.py:479-496 | The loop sends exactly the plan's image requests or stops with the first of them that fails |
| `PlayEdit.Publisher.SendCommit` | scripts/ci/google-play-edit.py:518-525 | The commit goes out after every change; it leaves the store as it was or with the whole plan, and a lost answer becomes an unknown outcome |
| `PlayEdit.Publisher.PublishRelease` | scripts/ci/google-play-edit.py:446-536 | Exact for every plan and every sequence of answers: the first request that fails decides the result, the requests sent, the deletion after an Exception and none after an interrupt, whether the store has the whole plan, and whether the edit is left behind; if none fails everything is committed |
| `PlayEdit.InterruptLeavesEdit` | scripts/ci/google-play-edit.py:390-403 | For every valid plan and every request after the first: interrupted there, the publication leaves its edit at Google Play |
| `PlayEdit.LostCreationLeavesEdit` | scripts/ci/google-play-edit.py:376-383 | For every valid plan: a creation whose answer is lost after its effect, or comes without an id, leaves the edit and sends no deletion |
| `PlayEdit.CommitComesLast` | scripts/ci/google-play-edit.py:518-519 | A commit is sent at most once, and only after every change |
| `PlayEdit.FailureIsCleanedUp` | scripts/ci/google-play-edit.py:390-403 | Among the requests of a failed publication there is one deletion if and only if the error is an Exception |
| `PlayEdit.ImagesEffect` | scripts/ci/google-play-edit.py:479-496 | Groups interleaved in any order end with exactly their images in order, untouched groups as they were |
| `PlayEdit.CommittedContent` | scripts/ci/google-play-edit.py:457-519 | What a committed edit holds, for every group, language and track |
| `RequestBody.Merge` | apps/cloud/src/server-storage.ts:1080-1086 | The array holds the chunks one after the other |
| `RequestBody.ReadRequestBytes` | apps/cloud/src/server-storage.ts:1025-1094 | The outcome is that of the first event that settles it, and exact in the sense of OutcomeIsExact |
| `RequestBody.SettledOnce` | apps/cloud/src/server-storage.ts:1052-1072 | One event at most settles the outcome |
| `RequestBody.OutcomeIsExact` | apps/cloud/src/server-storage.ts:1025-1079 | For any stream: a body is accepted if and only if it is all the data up to an end and fits the limit; too large if and only if some data from the start on exceeds it; aborted or failed if and only if that comes first |
| `RequestBody.BodyReader.OnData` | apps/mcp-server/src/http-server.ts:111-124 | Data is kept while it fits; past the limit the promise settles once, with an exact outcome |
| `RequestBody.BodyReader.OnLast` | apps/mcp-server/src/http-server.ts:125-131 | End, error or close always settle the promise, with the first of them and an exact outcome |

## Left out

- Code of `@mindwtr/core` (merging, finalizing a document for writing, the normalizers of task properties, link attachments, the archive exception): parameters of the members that call it.
- Authentication, token comparison, origin checks, rate-limit routes: security rules and plumbing.
- Symbolic-link, real-path and device/inode checks of publication and directory creation: outcomes given to the operation, as are throws of them.
- `loadAppData`, which caches the empty default for an unreadable file: only the repository's tests call it.
- JSON text: a written document is taken to read back as the same value; byte order marks and number formats are not modelled.
- SQLite's lock protocol, retry delays and time-outs: a shard lock is obtained, given up or aborted in any order.
- Logging, response texts and headers, CORS, environment variables, multipart parsing: no state.
- The simpler write locks of `apps/mcp-server/src/db-write-lock.ts` and `scripts/mindwtr-api.ts`, capture tokens and calendar feeds: easier copies of what is modelled.
- DurableStore.FileSystem.EnsureDirectoryWithinRoot: entries stand for whole directories, so the durability of what a new directory will hold is that of its own entries.
- Capture.CaptureRoute.HandleCapture: captures with audio only; without audio the document write is all there is. Nobody else writes at the audio's path, whose name is random.
- WriteLock.AbortedNeverRuns: says nothing about when the caller learns of the abort, which a race of two promises decides.
- Admission.HoldersDoNotWait: follows from the model's program counter, which is one place at a time, and from locks being taken from the handler only; it is not an argument about handlers.
- Admission.WritersAreAdmitted: compares two tables of routes that were entered by hand from the source.
- Admission.NamespaceCap: any-token mode, where the cap applies; with an allow-list nothing is admitted. Other programs that write into the data directory are not modelled.
- ConditionalPatch.Client.ConditionalAttachmentPatch: SHA-256 is taken to be injective, a strong tag that arrives is the one the server sent, and of the document only the patched collection is kept.
- DataCache.Run: a path's stat identity is taken never to stand for other contents, and files change only between operations, as the source demands of its callers.
- RateLimit.SlidingBound: a window of at least one millisecond, the smallest the configuration allows, a fixed limit of at least one, a clock that does not go back, and keys that fit.
- RateLimit.LimiterRefines: a clock that does not go back, and keys that fit.
- AttachmentGc.GarbageCollectOrphanAttachments: whether a link leads anywhere does not change during a sweep; an upload is written less than the grace period before it is published; nobody else removes or renames directories, as no route does; error codes are not kept.
- AttachmentPaths.NormalFormsAre: escapes of bytes above 7F decode to no path, whether they are malformed or give a letter outside the allowed ones.
- Validation.ValidateAppData: values are JSON values, so the comparison of a recurrence field with its normal form by their JSON texts does not see the order of keys; which of several messages a faulty document gets is not modelled.
- CalendarDates.IsValidRecurrenceUntil: whether Date.parse succeeds on a text with a time is a parameter; the other parts of a recurrence rule are not modelled.
- JpegScan.JpegDimensions: the PNG header check beside it is a single comparison.
- AuditReach.ValidateMobileAuditReport: sorting the ids before comparing them is equality of multisets.
- PlayEdit.Play.Send: the store behind the requests is an assumption: a request answered without an error has taken effect, and the id of an edit is the one the store gave it.
- PlayEdit.Publisher.PublishRelease: of the plan's checks only those on repeated tracks and languages are modelled, edit ids carry no white space at their ends, and nobody else changes the edit.
- RequestBody.ReadRequestBytes: an abort is an event of the stream; removing the listener and decoding the text are left out.
