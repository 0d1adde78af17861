# A verified model of the proxy control plane

The backend is the control plane of a fleet of proxy nodes: it stores sites, nodes and subscriptions, turns
drafts into signed bundles that nodes poll and acknowledge, runs background tasks, ingests telemetry and probe
results, keeps an audit log and backs itself up. This project models its stateful protocols and its archive and
policy transformations and proves what they are relied on for. `dafny verify dfyconfig.toml` checks everything.

Code that updates state step by step is modelled by methods and classes, each proved against a specification
function or a declarative property; the theorems over all inputs, all runs and all interleavings are lemmas about
those. SHA-256, HMAC, the JSON codec, `ipaddress` texts, IDNA and calendar buckets are function parameters; a
hypothesis about one of them (`Faithful`, `CollisionFree`, `WellBehaved`) is named where it is used.

| component | modules |
|---|---|
| backup archive | `Chunking`, `MemberNames`, `Archive`, `ArchiveLaws`, `ArchiveReader`, `Restore`, `BackupRoundTrip`, `BackupRestore` |
| backup retention | `Retention`, `RetentionRuns` |
| audit chain | `AuditChain` |
| bundles | `Bundles`, `RepairLaws`, `BundleLaws` |
| releases, acknowledgements, subscriptions | `ReleaseProtocol`, `DesiredInvariants`, `ReleaseRuns`, `ReleaseTheorems`, `ReleaseLedger`, `ReleaseLaws`, `RequestLaws`, `ControlPlane` |
| leased tasks | `TaskQueue` |
| telemetry | `Telemetry` |
| routing import | `RoutingImport`, `RoutingLaws` |
| blacklists | `Cidr`, `Hostnames`, `Blacklist`, `BlacklistTraffic` |
| subscription documents | `SubscriptionTags`, `SubscriptionLaws` |
| rate limiter, probe circuits | `RateLimiter`, `RateBudgets`, `CircuitBreaker` |
| helpers | `Strings`, `PythonText`, `Powers`, `Sums`, `JsonValue`, `JsonPaths` |

## What the code does not promise

Some natural claims fail. Each is stated as a lemma with a failing input, next to the exact condition (if and only
if) under which the claim holds.

- Audit expiry uses the unrepaired clock, so a clock step backwards can let an event expire before its
  predecessor: verification then fails (`AuditChain.BackwardClockBreaksExpiry`). After any mix of appends and expiry
  sweeps the log verifies exactly when each event left was appended while the event left before it was the newest
  one stored (`AuditChain.ExpiryVerifiesExactly`); append readings that never go back are enough.
- Online retention equals offline retention for arrivals, deletions and failures of records that are not retained.
  When a retained record fails it can break (`RetentionRuns.FailedRehearsalLosesBucket`): told from the stored records
  alone, a failure is harmless after every history exactly when the record is not retained
  (`RetentionRuns.FailureHarmlessExactly`).
- Telemetry markers stay below the cursor request by request, not between the operations of interleaved requests
  (`Telemetry.CollisionIsReachable`). The collision branch is reached exactly by a new batch ahead of the cursor
  whose sequence has a marker (`Telemetry.CollidesExactly`), so it is out of reach for every batch exactly while no
  marker lies above the cursor (`Telemetry.BoundedExactly`), and `Telemetry.UnboundedExactly` says which single
  operations end that. Acceptance once per purge holds under every interleaving.
- The rate limiter's pruned lists decide as a complete log under every choice of limits exactly when no event
  between a request that still counts and the next one forgets it (`RateLimiter.AlikeExactly`). Clocks that go back
  (`RateLimiter.BackwardClockForgets`) and windows above 3600 s (`RateLimiter.LongWindowsForget`) fail this; for
  steady clocks cleanup is harmless exactly for windows up to 3600 s (`RateLimiter.HarmlessExactlyForShortWindows`).
- A closed interval of one window can hold one request more than the limit (`RateLimiter.ClosedIntervalHoldsMore`):
  the limit holds for stretches of a given length exactly when they are shorter than the window
  (`RateLimiter.GuaranteedExactly`).
- Node ids may contain a colon, and then two circuits can share one alert fingerprint: one that is closed resolves
  the alert of one that is open (`CircuitBreaker.CollisionHidesCircuit`, `CircuitBreaker.ColonsCollide`). Alerts are
  right over all runs exactly when fingerprints are distinct (`CircuitBreaker.AlertsRightExactlyWhenDistinct`).
- For SIP008 documents the tag projection can be smaller than the recorded node count; the two agree exactly when
  the servers' labels differ (`SubscriptionTags.Sip008AgreesExactly`).
- Member names are recognised by the reader exactly below eight digits (`MemberNames.ChunkNameIsRecognised`); the
  configured size limits never get there (`BackupRoundTrip.FewChunks`).

## Model

| member | source | states |
|---|---|---|
| Chunking.GreedyIsGreedySplit | backend/app/services/backups.py:262-310 | The writer's chunks cover the lines in order, each within the limit, none empty, and no chunk could have taken the first line of the next |
| Chunking.NeighboursExceedLimit | backend/app/services/backups.py:286-299 | Two neighbouring members together exceed the member limit |
| Chunking.StaysAhead | backend/app/services/backups.py:286-299 | Saturated chunks covering a tail of what any fitting split covers need no more members than that split |
| Chunking.GreedyIsOptimal | backend/app/services/backups.py:262-310 | No order-preserving split within the limit uses fewer members than the writer |
| Chunking.GreedySplitIsUnique | backend/app/services/backups.py:262-310 | Fitting, non-empty and saturated determines the split completely |
| Chunking.MemberCountBound | backend/app/services/backups.py:286-299 | n members carry more than (n-1)/2 limits of payload |
| MemberNames.ChunkNameIsRecognised | backend/app/services/backups.py:422-434 | The reader maps a written member name back to its collection exactly for indices below 100000000 |
| MemberNames.ChunkNameInjective | backend/app/services/backups.py:223-224 | Different collections or indices never share a member name |
| ArchiveLaws.NamesExactly | backend/app/services/backups.py:422-434 | A member belongs to a collection exactly when it is `collections/NAME.jsonl` or `collections/NAME/` with eight digits and `.jsonl`, for a name that is not empty and has no slash |
| Archive.RowsOfLines | backend/app/services/backups.py:227-231 | Splitting the concatenated encoded lines gives back exactly their bodies |
| ArchiveLaws.RowsOfGlued | backend/app/services/backups.py:638-641 | The rows of any content are what stands between LF, CR LF and CR, with or without one at the end |
| Archive.WriteCollectionChunks | backend/app/services/backups.py:234-319 | Succeeds exactly when every encoded line fits; emits the greedy chunks as members and the matching counts, sizes and hashes |
| ArchiveReader.ValidateChunks | backend/app/services/backups.py:493-513 | Accepts exactly when each chunk has the expected name, row count, size and digest, and returns names, content and rows |
| ArchiveReader.ValidateCollection | backend/app/services/backups.py:484-520 | Accepts exactly the collections whose metadata and chunks are consistent |
| ArchiveReader.ValidateCollections | backend/app/services/backups.py:483-520 | Accepts exactly when every collection does, in whatever order they are visited |
| ArchiveReader.ValidateV2 | backend/app/services/backups.py:478-523 | Accepts exactly the archives whose files are the expected members with the recorded counts, sizes and hashes; a set mismatch is reported exactly when only the set is wrong |
| ArchiveReader.ValidateV1 | backend/app/services/backups.py:453-475 | The same for archives with one member per collection |
| ArchiveReader.ReadMembers | backend/app/services/backups.py:538-561 | Accepts exactly the member lists of regular, recognised, distinct members within both size limits |
| ArchiveReader.ReadArchive | backend/app/services/backups.py:526-582 | Accepts exactly the readable archives with a valid manifest of a known format; returns the files and the members of each collection |
| ArchiveReader.ManifestDeterminesFiles | backend/app/services/backups.py:478-523 | With a collision-free hash no two different sets of members are valid for one manifest |
| ArchiveReader.ManifestDeterminesFilesV1 | backend/app/services/backups.py:453-475 | The same for archives of schema 1 |
| ArchiveReader.OneFilePerCollection | backend/app/services/backups.py:453-475 | A valid archive of schema 1 has exactly one file for each collection |
| Restore.UpsertLooksUp | backend/app/services/backups.py:601-603 | Upserting documents with distinct ids leaves exactly them at their ids and everything else untouched |
| Restore.RestoreRows | backend/app/services/backups.py:640-656 | Batching in the row loop is invisible: counted, applied and pending rows are the decoded documents, those before the first bad row when there is one |
| Restore.RestoreCollection | backend/app/services/backups.py:637-658 | Counts and upserts the documents of all members in order; at a bad row exactly the whole batches before it are upserted; a rehearsal changes nothing |
| Restore.RestoredCollection | backend/app/services/backups.py:606-660 | After a restore a collection holds its old contents overlaid with the archived documents; the collections `task` and `backup_record` and foreign ones are untouched |
| Restore.TakenInBatches | backend/app/services/backups.py:640-658 | At any row the whole batches so far are written and the rest is pending |
| Restore.RestoreNext | backend/app/services/backups.py:622-658 | One collection: refused when unknown or undecodable, leaving the whole batches before its bad row; else counted, skipped or upserted; a rehearsal writes nothing even when refused |
| Restore.Database.RestoreBackup | backend/app/services/backups.py:606-660 | Succeeds exactly when every collection is known and decodes; counters, skip list and contents are those of the specification. A failure names the first bad collection's fault: those before it are restored, and of it the whole batches before its bad row |
| BackupRoundTrip.ArchiveBytes | backend/app/services/backups.py:322-352 | Succeeds exactly for distinct collections whose lines fit; returns all members and the manifest |
| BackupRoundTrip.WrittenArchiveIsValid | backend/app/services/backups.py:478-523 | What the writer emits passes the v2 validator with the manifest it returns |
| BackupRoundTrip.CollectionReadsBack | backend/app/services/backups.py:622-658 | A written collection validates, its members concatenate to the encoded lines and decode to the same documents |
| BackupRoundTrip.FewChunks | backend/app/config.py:61-68 | Under the configured limits no collection reaches the eight-digit member index |
| BackupRoundTrip.ArchiveRoundTrip | backend/app/services/backups.py:322-352 | Every archive written within the limits is accepted by the reader and reads back the same documents in the same order, for every collection |
| BackupRestore.RestoreSucceeds | backend/app/services/backups.py:622-645 | Every collection the writer archived can be restored into a database that knows it |
| BackupRestore.RestoreCounts | backend/app/services/backups.py:617-658 | The restore counts every document of the backup and applies exactly those of collections that are not skipped, in any collection order |
| BackupRestore.RehearsalCounts | backend/app/services/backups.py:617-658 | A rehearsal counts every document, applies and skips none and changes nothing |
| BackupRestore.SkippedAre | backend/app/services/backups.py:626-635 | The skip list is "backup_record" and "task", each when the archive has it |
| BackupRestore.RestoreRoundTrip | backend/app/services/backups.py:606-660 | Restoring a written archive, in any collection order, succeeds with these counts and overlays each collection but `task` and `backup_record` with exactly the backed-up documents |
| Retention.SortThenFilter | backend/app/services/backups.py:98-111 | Dropping records before or after the stable sort is the same |
| Retention.RetainDistinct | backend/app/services/backups.py:114-131 | The loop computes the newest record of each of the first `limit` buckets |
| Retention.RetainedScheduledBackupIds | backend/app/services/backups.py:83-136 | Without ties an id is returned exactly when its record is a candidate and the newest of its day with fewer than `daily` newer days, of its week with fewer than `weekly` newer weeks, or of its month with fewer than `monthly` newer months |
| Retention.RetainedAreKept | backend/app/services/backups.py:83-136 | The same of the specification, told over the stored records in any order: kept exactly when it leads its day, week or month within the limit |
| Retention.LeadsWithoutTies | backend/app/services/backups.py:114-131 | Where instants differ, leading a bucket means that every other candidate of the bucket is older |
| Retention.RetainedIsNewestOfBucket | backend/app/services/backups.py:114-131 | Without ties a record is kept exactly when it is the newest of its bucket and fewer than `limit` buckets are newer |
| Retention.RetainedIdsBound | backend/app/services/backups.py:133-136 | At most daily + weekly + monthly records are kept |
| RetentionRuns.DroppingUnretained | backend/app/services/backups.py:114-131 | Dropping any unretained records leaves the retained set unchanged |
| RetentionRuns.FewerRecordsKeepMore | backend/app/services/backups.py:114-131 | More records only push others out: what a larger list keeps, a smaller one keeps too |
| RetentionRuns.FailingUnretained | backend/app/services/backup_worker.py:385-404 | A record that is not retained can fail without any effect on what is |
| RetentionRuns.StepKeepsSafe | backend/app/services/backup_worker.py:230-276 | Arrivals, and deletions and failures of unretained records, never remove what the full history retains |
| RetentionRuns.OnlineEqualsOffline | backend/app/services/backup_worker.py:230-276 | After any such arrivals, deletions and failures the survivors retain exactly what one pass over the full history retains |
| RetentionRuns.BackupStore.ApplyRetention | backend/app/services/backup_worker.py:230-276 | One pass: a scheduled record that is due and neither kept by its day, week or month nor protected is deleted, or marked expired when its deletion fails; everything else stays as it was |
| RetentionRuns.PassIsDone | backend/app/services/backup_worker.py:230-276 | What a pass does to each record, told by what keeps it and not by the computed set |
| RetentionRuns.PassIsDeletion | backend/app/services/backup_worker.py:241-276 | Seen through its candidates a pass is a deletion of unretained records |
| RetentionRuns.PassKeepsRetained | backend/app/services/backup_worker.py:230-276 | A pass never changes the retained set, whatever is protected or fails |
| RetentionRuns.AgreesExactlyWhenSafe | backend/app/services/backup_worker.py:230-276 | Online and offline agree if and only if nothing the full history retains was deleted |
| RetentionRuns.FailureHarmlessExactly | backend/app/services/backup_worker.py:385-404 | Told from the stored records before it happens: a failure keeps online and offline in agreement after every run that leads to them if and only if the record is not retained |
| RetentionRuns.FailedRehearsalLosesBucket | backend/app/services/backups.py:97-103 | A retained backup that later fails leaves its day without any, although an older one had existed |
| AuditChain.VerifyAuditChain | backend/app/services/audit.py:101-129 | Valid exactly for accepted logs; otherwise names the first event that does not fit and why |
| AuditChain.StorageOrderIsIrrelevant | backend/app/services/audit.py:102 | Strictly increasing times make the order of storage irrelevant |
| AuditChain.AuditLog.Append | backend/app/services/audit.py:50-98 | Appends one event that links to the newest stored one, at the clock cut to the millisecond when that is later than every stored event, else one millisecond after the newest; on the millisecond grid that is the earliest admissible instant; order and verification are kept for any clock reading |
| AuditChain.AppendStaysSound | backend/app/services/audit.py:50-98 | The same for the specification: every append keeps times strictly increasing and is recorded when it should be |
| AuditChain.NewEventIs | backend/app/services/audit.py:50-98 | What the new event carries: its entry, the hash of the newest event, its own hash over all of it, and the instant |
| AuditChain.EarliestOnGrid | backend/app/services/audit.py:56-62 | On the millisecond grid the recorded instant is the least one that is not before the cut clock reading and after every stored event |
| AuditChain.WindowIsSound | backend/app/services/audit.py:103-106 | Every contiguous window of a sound log is sound |
| AuditChain.EveryRunVerifies | backend/app/services/audit.py:50-129 | After any appends under any clock and any expiry from the front the log verifies |
| AuditChain.EveryWindowVerifies | backend/app/services/audit.py:101-129 | So does every window, in particular every suffix, in any storage order |
| AuditChain.SameHeadSamePast | backend/app/services/audit.py:101-129 | With a collision-free hash, of two accepted logs with the same last hash the shorter is a suffix of the longer |
| AuditChain.EditIsDetected | backend/app/services/audit.py:101-129 | Same length and same last hash mean the same log |
| AuditChain.DeletionIsDetectedExactlyInside | backend/app/services/audit.py:101-129 | What remains after deletions verifies if and only if it is a contiguous window |
| AuditChain.ExpiryVerifiesExactly | backend/app/models.py:482-507 | After any mix of appends and expiry sweeps at any clock readings what is left verifies if and only if each event left was appended while the event left before it was the newest stored |
| AuditChain.ForwardClockVerifies | backend/app/models.py:498-507 | Append readings that never go back are enough, whatever the sweeps read |
| AuditChain.BackwardClockBreaksExpiry | backend/app/models.py:498-507 | Three events with different ids, the middle one recorded after a step back: accepted before a sweep, refused after it |
| Bundles.SignedVerifies | backend/app/services/crypto.py:25-47 | A signed bundle verifies and differs from its input in hash and MAC only |
| Bundles.MacPinsBundle | backend/app/services/crypto.py:35-47 | Two verifying bundles with the same MAC are the same bundle |
| Bundles.StripCleans | backend/app/services/bundles.py:31-47 | No retired key is left at any depth |
| Bundles.StripFixes | backend/app/services/bundles.py:31-47 | Stripping changes nothing if and only if there is no retired key |
| Bundles.FirstFree | backend/app/services/bundles.py:134-142 | The first automatic name outside the tags, found within size + 1 tries |
| Bundles.SubscriptionSelectionTags | backend/app/services/bundles.py:134-142 | Adds exactly one name outside a non-empty tag set: "auto", or the first of "auto-1", "auto-2", ... that is free |
| Bundles.SettledIff | backend/app/services/bundles.py:145-188 | Repair leaves a bundle alone if and only if it is clean, offers its selection and asks no old monitor for the automatic outbound |
| Bundles.RepairSettles | backend/app/services/bundles.py:145-188 | Repair is idempotent |
| Bundles.ServedBundleIsSafe | backend/app/services/bundles.py:145-188 | A repaired authentic bundle verifies, carries its stored hash, has no retired key and selects only a tag of its own subscription |
| Bundles.SettledForGood | backend/app/services/bundles.py:106-131 | Later stored contents do not unsettle a bundle |
| Bundles.RepairKeepsField | backend/app/services/bundles.py:145-188 | Repair touches no other clean field |
| RepairLaws.StripKeepsPlaces | backend/app/services/bundles.py:31-47 | Stripping takes away exactly the places below retired keys, at any depth, and leaves every other value where it was |
| RepairLaws.RepairExactly | backend/app/services/bundles.py:145-188 | Repair drops a selection exactly when it is not offered, lifts the gate 0.6.0 to 0.7.0 exactly for the automatic outbound, strips retired fields and changes nothing else but the signature |
| BundleLaws.BuiltSays | backend/app/services/bundles.py:191-247 | A built bundle says exactly what the release asks: ids, version, shutdown, bound subscription; a policy exactly when one is asked for or inherited, as the dump of its validation; the selection exactly on the nodes it is meant for when it is offered; the monitor gate these need; every other field as supplied |
| BundleLaws.InheritedIs | backend/app/services/bundles.py:260-280 | The inherited policy is that of the newest document of the node, else of the site |
| BundleLaws.CreateDesiredSays | backend/app/services/bundles.py:250-303 | For distinct nodes a release that does not fail inserts one document for each, which says what is asked of its node; the version is above the site revision and every version of the site |
| DesiredInvariants.BatchKeepsOrder | backend/app/services/bundles.py:260-303 | One more release keeps versions of a site ordered and bounded by its revision |
| DesiredInvariants.LatestIsNewest | backend/app/services/bundles.py:54-58 | The highest version of a node is its most recently created document |
| DesiredInvariants.BuildIsSound | backend/app/services/bundles.py:191-247 | A built bundle verifies and carries exactly the subscription bound to its site, with a validated policy if any |
| DesiredInvariants.BuildFailsTogether | backend/app/services/bundles.py:250-303 | A build fails for one node if and only if it fails for every node of the order |
| DesiredInvariants.InsertAllOrNone | backend/app/services/bundles.py:260-303 | The loop over nodes inserts a document for every node or for none |
| ReleaseRuns.CreateReleaseEffect | backend/main.py:3345-3441 | A request changes nothing, or only bumps a revision and fails, or inserts one document per selected node and commits |
| ReleaseRuns.CompensationRestores | backend/main.py:3579-3740 | Compensation puts every binding back exactly as it was |
| ReleaseRuns.RefusedPublication | backend/main.py:3579-3740 | A refused publication leaves bindings, bundles, versions and nodes unchanged and keeps the invariant |
| ReleaseRuns.AcceptedPublication | backend/main.py:3579-3740 | An accepted one inserts a bundle for every node of the site at the next version |
| ReleaseRuns.PublishKeepsInv | backend/main.py:3579-3740 | Publication, refused or not, keeps the invariant |
| ReleaseRuns.StepKeepsInv | backend/main.py:3345-3441 | Every handler step keeps the invariant |
| ReleaseRuns.RunKeepsInv | backend/main.py:3345-3441 | So does every run |
| ReleaseRuns.BindingAgreement | backend/main.py:3579-3740 | After any run the newest bundle of every node carries exactly the subscription bound to its site, at the highest version of the node and at most the site revision |
| ReleaseRuns.VersionsIncrease | backend/app/services/bundles.py:260-303 | Versions of a site strictly increase from release to release in creation order |
| ReleaseTheorems.RollbackSwaps | backend/main.py:3789-3815 | A successful rollback swaps current and previous version and takes the former's source |
| ReleaseTheorems.TwoRollbacksRestore | backend/main.py:3789-3815 | Two successful rollbacks restore the binding exactly, whatever else happens between them elsewhere |
| ReleaseTheorems.PollServes | backend/main.py:4626-4646 | After a poll the node's document is settled and its version and hash are known |
| ReleaseTheorems.ServedIsNotStale | backend/main.py:4626-4646 | A node reporting what it was served is told it is not stale, is sent nothing and changes nothing |
| ReleaseTheorems.PollingConverges | backend/main.py:4626-4646 | That stays so on every later poll until a new release targets the node |
| ReleaseTheorems.PollIsSafe | backend/main.py:4636-4646 | What a poll leaves stored for a node is safe to serve |
| ReleaseTheorems.ServedBundles | backend/main.py:4626-4646 | In every run every bundle handed out verifies, matches its stored hash and selects only what its subscription offers |
| ReleaseLedger.LatestAckPerNode | backend/main.py:833-850 | The loop computes the newest acknowledgement of each node |
| ReleaseLedger.LatestAcksAreNewest | backend/main.py:833-850 | It has an entry exactly for nodes that acknowledged, and no acknowledgement of the node is newer |
| ReleaseLedger.LatestAcksOrderIndependent | backend/main.py:833-850 | With distinct keys the listing order does not matter |
| ReleaseLedger.RequestKeepsLedger | backend/main.py:3331-3441 | A release request keeps exclusivity, used drafts and verdicts |
| ReleaseLedger.AckKeepsLedger | backend/main.py:4968-5069 | An acknowledgement keeps them |
| ReleaseLedger.RunKeepsLedger | backend/main.py:3331-3441 | So does every run |
| ReleaseLedger.ReachableReleases | backend/main.py:4968-5069 | In every reachable state no node is in two active releases, a draft in at most one release, and a release is finished exactly when all nodes acknowledged, succeeded exactly when each newest one is ok and healthy |
| ReleaseLedger.RepeatedKeyReturnsRelease | backend/main.py:3355-3361 | A repeated idempotency key returns the recorded release and changes nothing |
| ReleaseLedger.KeyYieldsOneRelease | backend/main.py:3355-3361 | That holds after any further steps |
| ReleaseLedger.GrantRecordsKey | backend/main.py:3345-3441 | A granted request records its key |
| ReleaseLaws.PollAnswers | backend/main.py:4626-4646 | The same of the specification; without a document the answer is "not stale" and nothing changes |
| ReleaseLaws.GrantIs | backend/main.py:3345-3441 | A granted request adds one document for each selected node at the next version of the site, and nothing else |
| ReleaseLaws.GrantedIsNewest | backend/main.py:3345-3441 | It is then the newest document of its node |
| ReleaseLaws.GrantedIsHandedOut | backend/main.py:4626-4646 | In every run after a grant, until another release targets the node, each poll of it with an older version is answered with the document of that release |
| ReleaseLaws.AcknowledgeDecides | backend/main.py:4968-5069 | When an acknowledgement is a duplicate, refused (and why) or accepted, told over the stored acknowledgements, releases and documents |
| ReleaseLaws.AcknowledgeChanges | backend/main.py:4968-5069 | An accepted one is appended and decides the status of its release; any other changes nothing |
| ReleaseLaws.ReachableVerdicts | backend/main.py:833-850 | In every reachable state a release is finished exactly when all its nodes have acknowledged, and succeeded exactly when the newest acknowledgement of each is ok and healthy |
| RequestLaws.ChecksExactly | backend/main.py:3355-3389 | The checks pass exactly for an open draft of an existing site, distinct nodes of it outside active releases and the expected version; each refusal names a true cause |
| RequestLaws.GrantedExactly | backend/main.py:3345-3441 | A new request is granted exactly when it passes and its policy validates and uses the proxy only with a subscription bound |
| RequestLaws.GrantedSays | backend/main.py:3345-3441 | The documents of a granted request say what its draft asks of each selected node |
| RequestLaws.PrecheckAllExactly | backend/main.py:3592-3632 | The first pass over the targets fails at the first site whose repeated key has no release or, for a new key, one of whose nodes is in an active release |
| RequestLaws.ReboundBinds | backend/main.py:3637-3665 | Publishing binds the version and its source and makes the one it replaces the previous one, for that site only |
| RequestLaws.PublishAnswers | backend/main.py:3579-3740 | What a publication to one site answers and leaves: a repeated key returns its release, a site without nodes is bound only, a refused release leaves all bindings as they were, a granted one binds |
| RequestLaws.RollbackAvailable | backend/main.py:3789-3815 | A rollback is refused, changing nothing, unless the previous version of a bound site exists and parses; otherwise it publishes that version |
| ControlPlane.PublishAllKeepsInv | backend/main.py:3579-3740 | A publication to several sites, stopped anywhere, keeps all invariants |
| ControlPlane.Backend.CreateDesiredRelease | backend/app/services/bundles.py:250-303 | The method computes the specified state and failure, and for distinct nodes every inserted document says what the release asks of its node |
| ControlPlane.Backend.PublishSubscriptionVersion | backend/main.py:3579-3740 | Changes nothing when a target fails its check, and then names the first that does and why; otherwise publishes site by site, keeping both invariants |
| ControlPlane.Backend.AgentAck | backend/main.py:4968-5069 | Duplicate exactly when it repeats the newest sequence of the node, else refused with the cause unless it confirms the version and hash of the document of its release; only then it is stored and the status of its release is the verdict of the newest acknowledgements |
| ControlPlane.Backend.AgentDesired | backend/main.py:4626-4646 | Stale exactly when the newest document of the node, as stored after the poll, has a higher version or another hash than the node reports; then and only then its bundle is handed out; the invariant is kept |
| TaskQueue.StepKeepsFine | backend/app/services/tasks.py:140-223 | Every step keeps active and lease in line with the status, the claim and backoff bounds and the active indexes |
| TaskQueue.RunKeepsFine | backend/app/services/tasks.py:15-223 | So does every run; in particular a source never has two active refreshes |
| TaskQueue.ReachableTaskBounds | backend/app/services/tasks.py:155-194 | A task is claimed at most max_retries times and the delays after its failures sum to at most 5 * (2^(max_retries-1) - 1) seconds |
| TaskQueue.StepMeans | backend/app/services/tasks.py:62-223 | Each operation applies exactly when it should and does what it should, to the task it names only: a failure or reclaim that leaves a task queued lets it run again 5 * 2^(failures before) seconds after the failure, and that is the growth of its delays |
| TaskQueue.InsertMeans | backend/app/services/tasks.py:15-46 | A new task is due at once, untried and the only change |
| TaskQueue.BackoffIsKept | backend/app/services/tasks.py:155-194 | After its k-th failure or reclaim at t no run claims the task before t + 5 * 2^(k-1) |
| TaskQueue.StepKeepsFinal | backend/main.py:3956-3972 | A cancel-requested or finished task is not claimed or requeued by any step |
| TaskQueue.CancelledIsNeverRequeued | backend/main.py:3956-3972 | Nor by any run |
| TaskQueue.FindDue | backend/app/services/tasks.py:62-93 | Finds a due task of the kind that none precedes, or there is none |
| TaskQueue.TaskStore.CreateTask | backend/app/services/tasks.py:15-46 | Returns the task of a taken key, reports a clash with an active task of the target, or inserts one that is due at once |
| TaskQueue.TaskStore.EnqueueRefresh | backend/app/services/subscription_worker.py:27-75 | Joins the active refresh of a source and otherwise starts one |
| TaskQueue.TaskStore.ClaimDue | backend/app/services/tasks.py:62-93 | Claims the queued task of the kind with the earliest next run, the oldest among equals, when that is not later than now; otherwise nothing |
| TaskQueue.TaskStore.ReclaimExpired | backend/app/services/tasks.py:197-223 | Exactly the tasks of the kind whose lease has run out are cancelled, given up, or queued again for 5 * 2^(failures before) seconds later |
| Telemetry.OperationsRunOut | backend/main.py:1358-1465 | A request issues at most nine database operations under any interleaving |
| Telemetry.TelemetryStore.AcceptTelemetryBatch | backend/main.py:1358-1465 | The handler's branches are the uninterrupted operations and do what they should to any documents: a known batch and the sequence of the cursor are refused and change nothing, any other is accepted; other nodes and kinds are untouched |
| Telemetry.AloneDecides | backend/main.py:1374-1466 | The same of the operations run alone on any documents, markers above the cursor and collisions included: an accepted batch moves the cursor, and is the only marker left when its sequence lies below the cursor or is taken by another batch |
| Telemetry.AloneIsRequest | backend/main.py:1358-1465 | Run alone on bounded markers a request never sees a collision and keeps markers at or below the cursor |
| Telemetry.SequentialAcceptance | backend/main.py:1358-1465 | After any requests run one by one the next decision is the one the accept log alone gives, and the collision branch is out of reach |
| Telemetry.EpochsOfTheLog | backend/main.py:1358-1465 | Accepted batches without a drop between them have strictly increasing sequences and different ids |
| Telemetry.ServedMirrors | backend/main.py:1395-1465 | After any requests the stored markers are exactly the batches of the current epoch of the accept log and the cursor is the last of them |
| Telemetry.PurgesExactlyOnDrop | backend/main.py:1395-1435 | An accepted request removes stored markers exactly when its sequence is below the one accepted last, and then leaves only its own; otherwise it adds its own |
| Telemetry.AcceptedOncePerPurge | backend/app/models.py:734-752 | Under any interleaving two inserts of one batch id, or of one sequence, have a purge between them |
| Telemetry.TwoTrueAnswers | backend/main.py:1338-1465 | Two requests that were both told "accepted" for one batch id imply a purge |
| Telemetry.InterleavedInvariant | backend/main.py:1358-1465 | The markers are what the trace of inserts and purges says, and a request returns true exactly when it inserted, once |
| Telemetry.CollidesExactly | backend/main.py:1386-1464 | For every stored state a request reaches the collision branch if and only if its id is new, its sequence has a marker and the cursor is missing or behind it |
| Telemetry.BoundedExactly | backend/main.py:1444-1464 | The branch is out of reach for every batch if and only if no marker lies above the cursor |
| Telemetry.UnboundedExactly | backend/main.py:1386-1464 | Interleaved, one operation leaves a marker above the cursor if and only if it inserts a sequence above the cursor or moves the cursor below a marker |
| Telemetry.CollisionIsReachable | backend/main.py:1444-1464 | A run of two requests that leaves a marker above the cursor, after which any new batch of that sequence collides |
| RoutingImport.ConvertPatterns | backend/app/routing_import.py:81-90 | Succeeds exactly when all patterns normalise and the limit holds; returns their rules in order |
| RoutingImport.ConvertFields | backend/app/routing_import.py:72-92 | All three fields in order, refused with the cause otherwise |
| RoutingImport.ConvertRules | backend/app/routing_import.py:55-92 | All rules well formed, or the first that is not is named |
| RoutingImport.ImportRouting | backend/app/routing_import.py:42-103 | Accepts exactly the importable documents, computes the combined policy and counts, and a refusal tells a true cause |
| RoutingImport.ExpandedMeaning | backend/app/routing_import.py:55-92 | First match over the flattened rules is first match over the source rules, for every destination |
| RoutingImport.OneRuleImports | backend/app/routing_import.py:46-103 | In each of the three document shapes a rule in the documented texts imports as exactly that rule: the field name gives the kind, "direct" goes past the proxy, "subscription" and "proxy" through it, `reject` blocks; `final` likewise |
| RoutingImport.ActionTellsTexts | backend/app/routing_import.py:39-42 | Read the other way: the action of an accepted rule tells its action and outbound texts |
| RoutingLaws.WellFormedExactly | backend/app/routing_import.py:55-92 | A rule is usable exactly when it has known fields only, the default type, a route to a known outbound or a reject without one, and at least one match field, each with usable patterns |
| RoutingLaws.EveryPatternIsARule | backend/app/routing_import.py:72-90 | Every pattern becomes one rule |
| RoutingLaws.ImportableExactly | backend/app/routing_import.py:45-103 | A document can be imported exactly when one of the three places holds at most 200 usable rules with at most 200 patterns, together with those kept in append mode, and its `final` names an outbound |
| RoutingImport.ImportKeepsMeaning | backend/app/routing_import.py:93-103 | Existing rules decide first in append mode, then the source rules, then route.final when present, else the old final action |
| RoutingImport.ImportStaysInPolicy | backend/app/routing.py:35-42 | At most 200 rules, a legal final action, other flags unchanged |
| RoutingImport.ReimportChangesNothing | backend/app/routing_import.py:93-103 | Importing the same document again changes no decision |
| RateLimiter.Limiter.CheckRateLimit | backend/main.py:275-300 | Prunes, decides and records as specified, and tells the remaining requests |
| RateLimiter.Limiter.CleanupOldWindows | backend/main.py:302-314 | Removes exactly the stale keys |
| RateLimiter.DecidesAsTheLog | backend/main.py:275-314 | For a steady clock and windows up to 3600 s the pruned lists decide as the complete accept log |
| RateLimiter.CleanupIsInvisible | backend/main.py:302-314 | The same requests without any cleanup are decided the same |
| RateLimiter.AcceptedSpread | backend/main.py:275-300 | Any stretch shorter than the window holds at most the largest limit of its key |
| RateLimiter.ClosedIntervalHoldsMore | backend/main.py:290-291 | A closed interval of one window can hold one more |
| RateLimiter.GuaranteedExactly | backend/main.py:275-300 | Stretches of a given length hold at most the limit in every run if and only if they are shorter than the window |
| RateLimiter.LongWindowsForget | backend/main.py:306-314 | For every window above 3600 s cleanup does change a decision |
| RateLimiter.HarmlessExactlyForShortWindows | backend/main.py:302-314 | For steady clocks all decisions are those of the complete log if and only if the window is at most 3600 s |
| RateLimiter.BackwardClockForgets | backend/main.py:306-314 | A clock that goes back can change a decision |
| RateLimiter.AlikeExactly | backend/main.py:275-314 | For any clock readings and cleanups: under every choice of limits the decision is that of the complete log if and only if no event between an earlier request that still counts and this one forgets it |
| RateLimiter.AtMostFiftyPerMinute | backend/main.py:328-380 | Over all paths and methods and with cleanup at any time, less than a minute lets through at most 50 requests counted against one address |
| RateBudgets.PassesWithinBudget | backend/main.py:328-380 | Whatever has arrived and whenever cleanup ran, a request passes exactly while the requests let through in the last minute for its address or token stay under the budget of its path and method |
| CircuitBreaker.AfterStored | backend/app/services/probes.py:53-93 | Stored circuits count trailing failures; a half-open one has one success and no failure |
| CircuitBreaker.CircuitTellsSamples | backend/app/services/probes.py:53-93 | For a steady clock the circuit is what the samples alone say, without counters or a half-open state; half open since its last sample |
| CircuitBreaker.OpensAtThirdFailure | backend/app/services/probes.py:77-93 | A closed circuit opens exactly at the third failure in a row |
| CircuitBreaker.ClosesAtSecondLateSuccess | backend/app/services/probes.py:53-76 | It closes exactly at the second of two successive successes both at least 60 s after opening |
| CircuitBreaker.AdvanceCircuit | backend/app/services/probes.py:53-93 | The field by field update of one circuit computes the specified circuit |
| CircuitBreaker.ProbeStore.RecordProbeResult | backend/app/services/probes.py:42-127 | Updates exactly the circuit, its alert and the status of its node as specified |
| CircuitBreaker.ProbeStore.SetAlert | backend/app/services/alerts.py:8-54 | Opens, refreshes or resolves one alert as specified |
| CircuitBreaker.CircuitsAreSeparate | backend/app/services/probes.py:42-127 | In every run each circuit is what its own samples make of it |
| CircuitBreaker.StatusTellsCircuits | backend/app/services/probes.py:119-126 | A node reads "open" exactly while one of its circuits is open |
| CircuitBreaker.StatusTellsLastCircuit | backend/app/services/probes.py:119-126 | Without an open circuit a node reads "closed" or "recovering" by the circuit it reported on last, and has no status before its first report |
| CircuitBreaker.AlertTellsSamples | backend/app/services/alerts.py:8-54 | With distinct fingerprints the alert of a circuit tells, in every run, when it first opened, when it was last seen open and when it was resolved |
| CircuitBreaker.AlertsRightExactlyWhenDistinct | backend/app/services/probes.py:109-118 | Over all runs alerts mirror their circuits if and only if fingerprints are distinct |
| CircuitBreaker.CollisionHidesCircuit | backend/app/services/probes.py:109-118 | Any two circuits with one fingerprint have a run in which an open circuit has no open alert |
| CircuitBreaker.ColonFreeNodesAreDistinct | backend/app/services/probes.py:110 | Colon-free node ids are enough, whatever the tags |
| CircuitBreaker.ColonsCollide | backend/app/schemas.py:117-121 | Two admissible node ids that collide |
| Cidr.MaskingKeepsAddresses | backend/app/services/cidr.py:33-34 | The normalised network holds exactly the addresses with the leading bits of the written prefix |
| Cidr.NetworkIsItsAddresses | backend/app/services/cidr.py:33-34 | Two normalised networks are equal if and only if they hold the same addresses |
| Hostnames.DomainMatchesIsLabelSuffix | backend/app/services/cidr.py:286-288 | The string test is label-list suffix, for all strings |
| Hostnames.NormalizedIsFixed | backend/app/services/cidr.py:41-75 | Normalisation is idempotent and yields a canonical host name |
| Hostnames.CaseAndDotDoNotMatter | backend/app/services/cidr.py:55-57 | Case and one trailing dot make no difference |
| Blacklist.EffectiveBlacklist | backend/app/services/cidr.py:105-139 | The loop and sort compute the effective list |
| Blacklist.EffectiveExactly | backend/app/services/cidr.py:105-139 | Exactly the keys of the active well-formed documents, strictly ascending |
| Blacklist.EffectiveFromFirst | backend/app/services/cidr.py:105-139 | Of several documents with one key the one stored first gives the rule its id |
| Blacklist.StorageOrderIsIrrelevant | backend/app/services/cidr.py:105-139 | Any stored order gives the same list of keys |
| BlacklistTraffic.MatchSource | backend/app/services/cidr.py:238-259 | The pattern of the first source rule that contains the address |
| BlacklistTraffic.MatchDestination | backend/app/services/cidr.py:262-289 | The pattern of the first destination rule that matches the host |
| BlacklistTraffic.SourcesBlockedAlike | backend/app/services/cidr.py:105-139 | The list a node gets blocks a source if and only if one of its enabled documents, as written, means it |
| BlacklistTraffic.HostsBlockedAlike | backend/app/services/cidr.py:105-139 | The same for destinations |
| BlacklistTraffic.PreviewIsMonotone | backend/app/services/cidr.py:292-353 | Rules added anywhere move the preview only up in allowed, indeterminate, blocked |
| BlacklistTraffic.PreviewExactly | backend/app/services/cidr.py:292-353 | On the list a node gets, outcome, reason, matched pattern and unresolved domains are exactly what its enabled documents, as written, mean; it fails exactly for an unreadable address |
| BlacklistTraffic.AllowedMeansUnblocked | backend/app/services/cidr.py:292-353 | An allowed preview means no enabled document blocks the address or the host |
| SubscriptionTags.ValidateItems | backend/app/services/subscriptions.py:729-751 | The loop builds the validator's tag set or stops at the first refusal |
| SubscriptionTags.CountNodes | backend/app/services/subscriptions.py:754-807 | An accepted document has between 1 and 128 nodes, the recorded count is their number, and for sing-box and Clash it is the size of the projected tag set |
| SubscriptionTags.CountedMeans | backend/app/services/subscriptions.py:729-807 | The same of the specification: every node adds one tag of its own and nothing else does |
| SubscriptionTags.SubscriptionOutboundTags | backend/app/services/subscriptions.py:835-881 | The projection loop computes the specified tag set |
| SubscriptionTags.ProjectionAgrees | backend/app/services/subscriptions.py:835-881 | For every accepted sing-box or Clash text the projection is exactly the validator's tag set, generated names included, and its size the recorded count |
| SubscriptionTags.Sip008AgreesExactly | backend/app/services/subscriptions.py:763-775 | For SIP008 size and count agree if and only if the labels differ |
| SubscriptionLaws.ValidValueExactly | backend/app/services/subscriptions.py:704-726 | The recursive value check passes exactly the values whose every part is small and at most twelve levels deep |
| SubscriptionLaws.ItemsPass | backend/app/services/subscriptions.py:729-807 | The loop goes on exactly while all items are acceptable, the names of nodes differ (but in SIP008) and sing-box nodes are at most 128; it then holds exactly their names, own or generated by number |
| SubscriptionLaws.AcceptedExactly | backend/app/services/subscriptions.py:810-832 | A text is accepted exactly when the list its format keeps its items in makes a usable subscription; format and node count are then those of that list |
| SubscriptionLaws.ProfilesAreTold | backend/app/services/subscriptions.py:778-787 | A Clash profile without proxies is refused as unsupported exactly when it names proxy providers under the first spelling that says anything |

## Left out

- Frontend, accounts, sessions, CSRF, log redaction and settings pages: presentation or single checks.
- HTTP fetching, DNS, GQuan delivery, OpenSSL, tar, gzip and file writes: an archive is its list of members.
- The Go monitor: a node is whatever reports versions, hashes, acknowledgements and probe results.
- Connection archive worker and startup migrations: the first replaces a day's file on re-export, the second rewrites bundles outside the protocol.
- Interleaving of handlers other than telemetry, and in-memory copies that overwrite newer documents: each handler is one atomic step.
- Restore skip set: modelled with the names the code uses; nothing is claimed about live task records being preserved.
- `isdecimal` on member names accepts non-ASCII digits in Python; the model accepts ASCII digits only.
- Whole-archive and manifest size are hypotheses of the round trip, because the writer does not enforce them.
- `config.publish` tasks, late probe batches that complete a task of another worker, and worker threads: the task model covers refresh, probe and backup tasks finished by their holders.
- Node status fields and alerts written on acknowledgement, the `published` flag, and audit entries written by handlers.
- A node's agent id serves as its document id as well.
- Rollback retries: no idempotence is claimed for them, because their key names the version that was previous at call time.
- Access-control groups (`effective_access_control`): the same loop as the blacklist with one more field.
- Scoped IPv6 addresses (`fe80::1%eth0`): an address here has no scope, so addresses that differ only in scope are not told apart.
- Which of several `_validate_value` codes is raised: one refusal stands for them.
- YAML mappings with keys that are not strings, VLESS and VMess links, and the parsing of JSON and YAML.
- Circuit fields kept for display (latency, last error, reason, last success and failure times).
- Retention: a record arrives when it becomes ready, at any position; a failed record that becomes ready again is not modelled.
- Rate limiter times are reals; floating-point rounding of the clock is not modelled.
