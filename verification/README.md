# Verified model of the cloudflared manager

This project models the stateful core of a daemon that supervises many
`cloudflared` child processes, together with the part of its web console that
edits the same remote configuration, and proves what that core promises.
`dafny verify dfyconfig.toml` checks all of it.

What the source does in place is modelled in place: classes with fields and
arrays, loops with invariants, each method proved against a specification
function about which the properties are then proved. What runs concurrently is a
state machine over its critical sections, and its properties hold in every state
of every run.

## Modules

- `Options`, `Sequences`, `Strings`: shared notions; strings are ASCII text.
- `Lifecycle`: start, stop and reload of one instance under its operation mutex,
  racing with the death of children, with the reaper, and with one exit watcher
  per published worker.
- `Versions`, `Spelling`, `BinStore`, `Ranking`, `Retention`, `Instances`: version
  tags, their order and how they sort as text, the on-disk store with the paths that
  tags lead to, what pruning keeps, and what the manager tells the update engine
  about its instances.
- `Rollout`, `Updater`, `UpdaterLaws`: the two pipeline bodies, update and bootstrap,
  with an arbitrary oracle for reloads and health probes.
- `Bodies`: the same two bodies one access to the store at a time, and that left alone
  they end where `Updater` says.
- `UpdateLock`, `EngineRuns`: any number of triggers that race for the run lock while
  others write the store at any moment, first for arbitrary bodies, then for those two.
- `Framing`, `Rings`, `Tailer`, `LastLines`, `EventBus`, `Handshake`: byte streams
  cut into lines, four ways of keeping the last entries, fan-out to bounded
  queues, and subscribing before taking a snapshot.
- `Traffic`, `Alerts`, `PromText`: counter deltas and bucketing, the debounced
  alert engine and its table, the metrics text parser.
- `MergePatch`: the JSON merge patch of section 2 of RFC 7396.
- `Ingress`, `TunnelConfig`, `TunnelEdits`: ingress rules and first-match routing,
  reading and writing the remote configuration, concurrent edits under a mutex
  per tunnel.
- `Zones`, `Dns`, `Hostnames`: which zone owns a hostname, the CNAME upsert and its
  status report, the console's form fields.

## Where the code falls short of what it says

These are theorems here; each comes with an exact condition under which the
promise holds, or with a run that breaks it.

- The exit watcher clears the instance's worker without asking whose worker it is
  (`internal/manager/instance.go:325`). A late watcher can leave two live children,
  or let a stop return with a child alive. Which of its steps break the invariant is
  stated exactly (`Lifecycle.WatchKeepsInvIff`), and every run without them is safe;
  so is every run in which a published worker's watcher finishes before the next worker
  is published.
- "Started" does not imply a live child: the watcher can report the exit before the
  start records its success, and nobody is left to notice. At rest a started instance
  has a live child exactly if it names one (`Lifecycle.StartedIsAliveIff`).
- The comment on `TriggerAsync` says that a held run lock always means that a run is
  reported; it does not, in two windows (`UpdateLock.HeldWithoutFlagIff`).
- The handlers that install, activate and delete versions write the store without the
  run lock (`internal/api/binaries.go:74-160`). Idleness and mode safety hold all the same
  (`EngineRuns.RestsIdle`, `EngineRuns.NotifyRunsChangeNothing`,
  `EngineRuns.UnappliedRunsSetNoMarker`), but a version that a handler activates after an
  update has compared is replaced, however new it is (`EngineRuns.HandlerIsOverridden`).
- The release that a download brings is not compared with what was asked for. A run leaves
  an older version active than it found exactly if its download brings one, or wipes the
  store, and the download sticks (`UpdaterLaws.DowngradesIff`).
- The bootstrap looks neither at the mode nor at anything else but whether it is enabled
  and no version is active, so notify and download mode do not keep it from activating
  the newest release (`EngineRuns.UnappliedActivatesIff`).
- The store's listing is documented as sorted by version, but September is spelled above
  December. Two tags are in order exactly if, in the first segment that differs, the
  older number is at most what as many leading digits of the newer one form
  (`Retention.ListingAgreesIff`); pruning sorts again, numerically.
- What an operation must not do to keep the active version runnable is stated exactly
  (`BinStore.RunnableIffHarmless`). Through the handlers, which admit only single safe path
  segments, there are two ways to do harm: activating the alias "current", which is
  recorded as it is, and deleting "active.json", which is the active marker itself
  (`BinStore.ValidTagHarmsIff`). A padded tag and a tag with a trailing slash do harm too,
  but the handlers refuse them.
- A forced reinstall of the active version from an archive that fails its checksum takes
  the active version away (`UpdaterLaws.CorruptDownloadIff`).
- A rollback whose reactivation the store refuses is still reported as a rollback.
- The table of alert events is on disk and the engine's memory is not, so a restart while a
  rule is fired leaves a firing row that only the rule's next resolution clears, and until
  then the table is wrong (`Alerts.OneFiringRowIff`, `Alerts.RestartLeavesRow`).
- A rule that fires twice within one second loses its second row; time 0 doubles as
  "not breached", which takes a clock that stands at the epoch.
- The status of a hostname is read from one page of 100 records, so a record further
  down is reported as absent (`Dns.ReportSeesIff`).
- `mergeMap` keeps nulls inside an object that lands on a missing member.
- `findZone` never finds a zone of a single label, which `pickZone` would pick, and it trims
  a trailing dot, which `pickZone` does not (`Zones.FindAgreesWithPickIff`).

## Model

| member | source | states |
|---|---|---|
| Lifecycle.StepKeepsInv | internal/manager/instance.go:204-389 | every step but a harmful watcher hit keeps the invariant, and a stop that returns leaves no live child |
| Lifecycle.WatchKeepsInvIff | internal/manager/instance.go:320-336 | a step of an exit watcher keeps the invariant if and only if it does not hit a later worker while the mutex is free or a start or stop is about to look at the worker, or clear it while a start publishes or marks |
| Lifecycle.StopStepKeepsInv | internal/process/worker.go:241-261 | while a stop escalates, a live child is the one it is waiting for, until it is reaped |
| Lifecycle.StartStepKeepsInv | internal/process/worker.go:165-189 | a spawned child is the only live one through its startup grace, publication and marking |
| Lifecycle.SafeRuns | internal/manager/instance.go:204-389 | in every run without such a hit: at most one live child, always owned when the mutex is free, none when a stop returns |
| Lifecycle.FinishFirstIsSafe | internal/manager/instance.go:319-336 | the scheduling assumption that every earlier watcher finished before a worker is published rules such hits out and implies that safety |
| Lifecycle.OwnershipIffNoStaleHit | internal/manager/instance.go:320-336 | between operations a step keeps live children owned if and only if it is not a stale hit |
| Lifecycle.RestsDefinite | internal/manager/instance.go:204-389 | in every state of every run an instance on which no operation is under way counts as started or as stopped |
| Lifecycle.OperationsGoAhead | internal/manager/instance.go:214-222 | a start of a stopped instance and a stop of a started one go ahead; the others change nothing |
| Lifecycle.OperationsEnd | internal/manager/instance.go:229-378 | an operation ends started only by marking and otherwise stopped, and a reload goes on to its start |
| Lifecycle.FailedStartsEndStopped | internal/manager/instance.go:229-313 | a start that fails at its configuration, its spawn or its grace ends stopped and leaves everything else as it was |
| Lifecycle.WatcherFinishes | internal/manager/instance.go:320-336 | a watcher clears the fields, sets the phase unless it saw a stop under way, and is then done |
| Lifecycle.NeverStuck | internal/process/worker.go:241-261 | in every run the holder of the operation mutex can move, at worst after a killed child has been reaped, and is done after at most fourteen moves |
| Lifecycle.KillsAfterTwoGraces | internal/process/worker.go:241-261 | an operation kills a child exactly when it has outlasted both graces of a stop, or through its own context |
| Lifecycle.OnlyTheseEndChildren | internal/process/worker.go:165-189 | children end by such a kill or on their own, and begin only by being spawned |
| Lifecycle.LateWatcherAllowsTwoChildren | internal/manager/instance.go:320-336 | some run has two live children |
| Lifecycle.LateWatcherLetsStopLeaveAChild | internal/manager/instance.go:320-378 | some run lets a stop return with a live child |
| Lifecycle.StartedMeansAlive | internal/manager/instance.go:319-344 | at rest, "started" implies a live child, unless a watcher reported before the start recorded its success |
| Lifecycle.StartedIsAliveIff | internal/manager/instance.go:319-344 | at rest, the worker that a started instance names is alive, in every run; and without harmful hits a started instance has a live child if and only if it names a worker |
| Lifecycle.EarlyReportLeavesStartedWithoutChild | internal/manager/instance.go:319-344 | with such a report an instance can rest as "started" with no child |
| Versions.ParseVer | internal/cfdupdate/updater.go:588-602 | the loop fills the three segments that the specification reads from a tag |
| Strings.TrimTakesSpaces | internal/cfdupdate/updater.go:317 | which characters trimming takes off |
| Strings.StripIsMiddle | web/src/pages/cfIngress.ts:334-335 | stripping takes off both ends as much as there is |
| Strings.CasesFold | internal/api/cf_link.go:518 | which characters are equal up to case |
| Versions.SegmentsCount | internal/cfdupdate/updater.go:588-602 | a segment counts as its decimal value, capped, and as 0 if it is no number |
| Versions.CompareVersions | internal/cfdupdate/updater.go:575-586 | comparing segment by segment is the order on parsed versions |
| Versions.CompareIsTotalPreorder | internal/cfdupdate/updater.go:575-586 | the order is reflexive, antisymmetric up to equal numbers, transitive and total |
| Versions.ParseInvertsTag | internal/cfdupdate/updater.go:588-602 | a printed version is read back, with or without the leading v and any pre-release or build suffix |
| Versions.TagsCompareNumerically | internal/cfdupdate/updater.go:575-602 | tags are ordered by their numbers |
| BinStore.TagLength | internal/cfdbin/store.go:20-22 | a valid tag has one to sixty-four characters |
| BinStore.TagCharacters | internal/cfdbin/store.go:20-22 | which characters can stand in a valid tag, and which in front |
| BinStore.ResolvesAs | internal/cfdbin/store.go:125-150 | what a configured tag stands for, and when it can run |
| BinStore.RemovedIff | internal/cfdbin/store.go:279 | removing a path takes the marker or a version exactly if the path leads to its file or to a directory above |
| BinStore.DownloadsHitTheirPlace | internal/cfdbin/download.go:278-300 | an installation adds the version its tag leads to, a failed extraction takes it away, or everything |
| BinStore.InstalledResolves | internal/cfdbin/download.go:202-327 | an installed version resolves from then on, and all others as before |
| BinStore.DeletedIsGone | internal/cfdbin/store.go:265-280 | deleting a version takes it away and no other, and never the active one |
| BinStore.Store.Install | internal/cfdbin/download.go:202-327 | a fetched tag becomes installed, even when recording it fails afterwards; a failed extraction loses whatever the tag leads to, a missing release changes nothing |
| BinStore.Store.Activate | internal/cfdbin/store.go:245-261 | activation succeeds exactly if the tag resolves, and then records the tag as given |
| BinStore.Store.Delete | internal/cfdbin/store.go:265-280 | the active tag is refused as spelled; otherwise whatever the tag leads to is removed: a version, its binary, the marker, or the whole store |
| BinStore.RemovableIff | internal/cfdbin/store.go:272-279 | a deletion that the guard lets through fails if there is nothing to remove, or a version that cannot be |
| BinStore.RunnableIffHarmless | internal/cfdbin/store.go:125-150 | for every tag, path or not, an operation keeps the active version runnable if and only if it is not harmful, as read off its argument and the marker |
| BinStore.ValidTagHarmsIff | internal/cfdbin/store.go:20-22 | for tags that are single safe path segments the harmful operations are a failed extraction over the active version, activating the alias and deleting the marker |
| BinStore.PaddedActivationBreaks | internal/cfdbin/store.go:245-261 | activating an installed tag with a trailing blank is accepted by the store and leaves nothing to run |
| BinStore.AliasActivationBreaks | internal/cfdbin/store.go:245-261 | activating "current" is accepted and leaves nothing to run |
| BinStore.MarkerDeletionBreaks | internal/cfdbin/store.go:265-280 | "active.json" is a valid tag, and deleting it leaves nothing to run |
| BinStore.SlashedDeletionBreaks | internal/cfdbin/store.go:265-280 | the active tag with a trailing slash gets past the guard and leaves nothing to run |
| Retention.List | internal/cfdbin/store.go:197-240 | the listing holds every installed version but the alias, in descending byte order |
| Retention.SortedNewestFirst | internal/cfdupdate/updater.go:495-501 | sorting that listing stably by number orders it by number and then spelling |
| Retention.ListingAgreesIff | internal/cfdbin/store.go:195-240 | the listing has a newer tag before an older one if and only if the older number in the first differing segment is at most what as many leading digits of the newer one form |
| Spelling.TagsSortIff | internal/cfdbin/store.go:236-239 | the same for byte order on tags, whatever their suffixes |
| Spelling.SpellingMisorders | internal/cfdbin/store.go:195-240 | the listing puts a September before a December of the same year |
| Retention.PruneListed | internal/cfdupdate/updater.go:502-523 | the counting loop removes exactly the candidates beyond the first keep in list order |
| Retention.Prune | internal/cfdupdate/updater.go:486-523 | what stays: everything if keep is not positive; else the active, the pinned, the keep newest others and whatever could not be deleted |
| Retention.GoesIff | internal/cfdupdate/updater.go:486-523 | a version goes exactly if it is neither alias, active, pinned nor stuck and at least keep such versions are newer |
| Retention.KeptAreTheNewest | internal/cfdupdate/updater.go:486-523 | when deletes succeed, keep candidates stay (or all), and none that stays is older than one that goes |
| Retention.RunsStayRunnable | internal/cfdbin/store.go:245-280 | any sequence of harmless operations and prunings keeps the active version runnable |
| Instances.FollowsIff | internal/manager/autoupdate.go:40-45 | a configured version follows the active one exactly if it resolves to the same in every store |
| Instances.RestartedIff | internal/manager/autoupdate.go:30-51 | which instances an update restarts |
| Instances.ActiveFollowerRunningIDs | internal/manager/autoupdate.go:30-51 | the ids of the running instances that follow the active version, in order |
| Instances.PinnedBinaryVersions | internal/manager/autoupdate.go:58-83 | exactly the concrete versions that readable configurations name |
| Instances.Retain | internal/cfdupdate/updater.go:486-523 | pruning with the manager's pins leaves every instance with a readable configuration the binary it had |
| Instances.WaitHealthy | internal/manager/autoupdate.go:90-111 | healthy means healthy at every check up to the first one at or after the deadline |
| Rollout.Fleet.TryAll | internal/cfdupdate/updater.go:404-426 | every follower is tried once, in order, and those that fail are returned |
| Rollout.Fleet.TryUntilFailure | internal/cfdupdate/updater.go:404-426 | followers are tried in order up to and including the first that fails |
| Rollout.TriedReloadsEachOnce | internal/cfdupdate/updater.go:404-459 | the trace of a restart reloads each id exactly once, in order |
| Rollout.FailingIffTraceShowsIt | internal/cfdupdate/updater.go:408-459 | an id is reported exactly if the trace shows its reload or its probe failing |
| Rollout.PassingTrace | internal/cfdupdate/updater.go:408-430 | without a failure the trace is one good reload and one good probe per id |
| UpdaterLaws.NamedSkipsBlanks | internal/cfdupdate/updater.go:446-449 | reverting skips blank ids and no others |
| Updater.Engine.Revert | internal/cfdupdate/updater.go:433-474 | the old version is reactivated and the touched followers are reloaded in the same order |
| Updater.Engine.RollingRestart | internal/cfdupdate/updater.go:399-481 | the new state, log and outcome of a restart, for every oracle |
| Updater.Engine.Deploy | internal/cfdupdate/updater.go:368-392 | activate, restart, then prune only after full success |
| Updater.Engine.FetchAndDeploy | internal/cfdupdate/updater.go:349-366 | a failed download ends the run; without apply the version is only recorded as pending |
| Updater.Engine.Run | internal/cfdupdate/updater.go:311-392 | the new state, log and status of a whole run, branch by branch |
| Updater.Engine.BootstrapIfMissing | internal/cfdupdate/updater.go:190-224 | the bootstrap: nothing unless enabled with no active version; else the newest release is installed and activated, and nothing is restarted |
| UpdaterLaws.RunsGoForWhatTheyWereTold | internal/cfdupdate/updater.go:317-328 | a run that was told a version goes for it, trimmed, whatever the newest release is; one that was not goes for the newest, and fails untouched if that is unknown |
| UpdaterLaws.RestartSucceedsCompletely | internal/cfdupdate/updater.go:404-430 | all-or-nothing, first half: success means one good reload and probe of every follower on the new version |
| UpdaterLaws.RestartRevertsCompletely | internal/cfdupdate/updater.go:404-475 | second half: exactly the followers up to the first failure are reloaded once more on the old version, in order, degraded are those for which that fails, the rest are never touched, nothing is removed |
| UpdaterLaws.RollbackRestoresIff | internal/cfdupdate/updater.go:433-475 | a reported rollback restores the old version if and only if the store accepts it |
| UpdaterLaws.BestEffortTriesAll | internal/cfdupdate/updater.go:404-430 | without rollback every follower is tried once, whatever the others do |
| UpdaterLaws.RunEndsIdle | internal/cfdupdate/updater.go:540-562 | every finished run leaves the engine idle with a result |
| UpdaterLaws.ModesAreSafe | internal/cfdupdate/updater.go:339-366 | an update that is not to be applied changes neither store nor instances in notify mode, restarts nothing in download mode, and moves the marker there if and only if its download wipes the store |
| UpdaterLaws.OnlyUpdatesPrune | internal/cfdupdate/updater.go:376-392 | an update that does not end "updated" removes versions if and only if its own download does |
| UpdaterLaws.DownloadLosesIff | internal/cfdbin/download.go:278-300 | a download removes versions if and only if its extraction fails over one of them or over the whole store |
| UpdaterLaws.DeployedMeansHealthy | internal/cfdupdate/updater.go:368-392 | "updated" means: target active, every follower healthy on it, retention applied |
| UpdaterLaws.RunKeepsRunnable | internal/cfdupdate/updater.go:311-392 | an update whose own download is gentle leaves instances that follow the active version able to run if they were, through rollback and pruning |
| UpdaterLaws.CorruptDownloadIff | internal/cfdbin/download.go:278-300 | an update with a corrupt download keeps the active version runnable if and only if the clean-up does not hit it |
| UpdaterLaws.ForcedReinstallBreaks | internal/cfdupdate/updater.go:329-366 | a forced reinstall of the active version that fails its checksum leaves nothing to run |
| UpdaterLaws.BootstrapActivatesIff | internal/cfdupdate/updater.go:203-223 | the bootstrap activates a version if and only if the newest release is known, downloads well and is accepted, whatever the mode |
| UpdaterLaws.CompareQualifies | internal/cfdupdate/updater.go:575-586 | the version order meets what the next row asks of an order |
| UpdaterLaws.DowngradesIff | internal/cfdupdate/updater.go:260-475 | a run leaves an older version active than it found if and only if its download wipes the store, or brings an older version that is accepted and not rolled back |
| UpdaterLaws.ScheduledNeverDowngrades | internal/cfdupdate/updater.go:260-271 | a scheduled update never does unless its own download brings something older than the active version |
| Bodies.AloneMeetsSpec | internal/cfdupdate/updater.go:190-523 | taken one access to the store at a time, an update or bootstrap that nobody interferes with ends exactly where its specification says: restart loop, rollback loop and one-by-one pruning included |
| Bodies.StepKeepsWord | internal/cfdupdate/updater.go:190-523 | whatever the store looks like by then, each such step keeps its word: idle with a result at the end, mode safety, who may set the marker or remove versions, and pruning never takes the active binary |
| Bodies.StepShowsPhase | internal/cfdupdate/updater.go:311-475 | the status follows a body from position to position |
| UpdateLock.RunsKeepInv | internal/cfdupdate/updater.go:190-307 | in every run the lock admits one trigger, the flag is up only for it, and what its body last wrote is still there but for marked writes of others |
| UpdateLock.OneBodyAtATime | internal/cfdupdate/updater.go:277-307 | in every reachable state at most one body is under way, what only bodies write is as it last wrote it, and everything is unless others have written, which is marked |
| UpdateLock.BodiesCompose | internal/cfdupdate/updater.go:277-307 | whenever no body is under way, the world is the lock-order composition of the undisturbed bodies and the writes of others |
| UpdateLock.TriggersWereAdmitted | internal/cfdupdate/updater.go:190-203 | every body that ran passed its check at some earlier moment, before the lock |
| UpdateLock.BusyChangesNothing | internal/cfdupdate/updater.go:277-285 | a trigger is turned away if and only if another holds the lock, and then nothing else changes |
| UpdateLock.HeldWithoutFlagIff | internal/cfdupdate/updater.go:287-307 | the lock is held with the flag down exactly while some trigger is about to raise it or has just lowered it |
| UpdateLock.RejectedWhileIdleHappens | internal/cfdupdate/updater.go:287-307 | some run turns a trigger away while no operation is reported |
| EngineRuns.EveryBodyKeepsItsPromises | internal/cfdupdate/updater.go:190-392 | in every run of the engine every undisturbed body was admitted, does what its specification says and keeps its promises |
| EngineRuns.EveryStepKeepsItsWord | internal/cfdupdate/updater.go:190-523 | in every run every step of every body, disturbed or not, keeps its word |
| EngineRuns.BootstrapsWereNeeded | internal/cfdupdate/updater.go:190-203 | a bootstrap is under way or has run only if at some moment it was enabled and no version was active |
| EngineRuns.RestsIdle | internal/cfdupdate/updater.go:540-562 | in every run, whatever others write and when, the engine is idle whenever no body is under way, and a body that ends leaves a result |
| EngineRuns.StatusShowsPhase | internal/cfdupdate/updater.go:528-534 | while a body is under way the status shows how far it is, whatever others write |
| EngineRuns.NotifyRunsChangeNothing | internal/cfdupdate/updater.go:339-347 | while only updates in notify mode arrive that are not to be applied, the store is in every state what others last made of it and no instance is touched |
| EngineRuns.UnappliedRunsSetNoMarker | internal/cfdupdate/updater.go:339-366 | while only updates arrive that are not to be applied, the marker is in every state what others, or a download that wiped the store, last made of it, and no instance is touched |
| EngineRuns.OnlyOthersAndBootstraps | internal/cfdupdate/updater.go:190-366 | in notify mode with bootstraps among them, the store changes only in writes by others and in steps of bootstraps that were needed at some moment |
| EngineRuns.OnlyOthersAndBootstrapsActivate | internal/cfdupdate/updater.go:190-366 | in notify and download mode a version becomes active in no other step |
| EngineRuns.ScheduledRunsNeverDowngrade | internal/cfdupdate/updater.go:260-271 | over whole runs of scheduled updates, none of which downloads something older than what it finds active, the active version never gets older |
| EngineRuns.HandlerIsOverridden | internal/cfdupdate/updater.go:326-374 | in some run a scheduled update replaces what a handler has activated after its check |
| EngineRuns.BootstrapActivatesInAnyMode | cmd/cfdmgrd/main.go:257-262 | in every mode some run installs and activates the newest release unasked |
| EngineRuns.NotifyChangesIff | internal/cfdupdate/updater.go:190-366 | one undisturbed call in notify mode that is not to apply anything changes the store if and only if it is an enabled bootstrap without an active version whose download leaves something |
| EngineRuns.UnappliedActivatesIff | internal/cfdupdate/updater.go:190-366 | one such call in notify or download mode activates another version if and only if it is such a bootstrap and its download is accepted |
| Framing.CutInvertsUnsplit | internal/logtail/process_tailer.go:434-452 | cutting a stream gives back the lines it was written from |
| Framing.UnsplitInvertsCut | internal/logtail/process_tailer.go:434-452 | cutting loses and adds nothing |
| Framing.CutConcat | internal/logtail/process_tailer.go:434-452 | feeding a chunk to what has been cut is cutting the longer stream |
| Framing.ChunkingDoesNotMatter | internal/logtail/process_tailer.go:434-452 | any chunks, fed one by one, give the lines and rest of their concatenation |
| Rings.Ring.Append | internal/logtail/process_tailer.go:250-260 | the ring goes on holding the last entries of the history, through wraparound |
| Rings.Ring.Linear | internal/logtail/process_tailer.go:371-379 | unrolled, the ring is the last entries, oldest first |
| Rings.OverwriteKeepsLast | internal/logtail/process_tailer.go:253-259 | overwriting the oldest slot and moving on refines the plain "last n" |
| Rings.Compact | internal/logtail/process_tailer.go:380-388 | filtering in place over the same backing array keeps exactly the matching entries in order |
| Sequences.SelectIsExact | internal/logtail/process_tailer.go:380-388 | filtering drops nothing that matches and admits nothing else, with multiplicity |
| Tailer.LineBuffer.Grow | internal/logtail/process_tailer.go:440-441 | appending a chunk to the tail, in the tail's own array when it fits |
| Tailer.LineBuffer.Keep | internal/logtail/process_tailer.go:444-447 | the rest becomes the tail even when it overlaps the tail's array |
| Tailer.ProcessTailer.Drain | internal/logtail/process_tailer.go:442-451 | one entry per terminated line, trailing carriage returns trimmed, numbered on |
| Tailer.ProcessTailer.Write | internal/logtail/process_tailer.go:434-452 | each call appends exactly the lines it completes; a stopped tailer takes nothing |
| Tailer.LevelsAreMinimal | internal/logtail/process_tailer.go:282-339 | a minimal level shows the entries of that level and the more severe ones, and none of an unknown level |
| Tailer.UnknownLevelHidesNothing | internal/logtail/process_tailer.go:322-339 | an unknown minimal level hides nothing |
| Tailer.KeywordsOccur | internal/logtail/process_tailer.go:287-292 | a keyword shows the entries with it in the message or the raw line, whatever the case |
| Tailer.OtherFieldsRestrict | internal/logtail/process_tailer.go:293-312 | events, connection and time restrict as they say |
| Tailer.FieldsCombine | internal/logtail/process_tailer.go:282-314 | a filter of several fields shows what each of them shows |
| Tailer.ProcessTailer.Snapshot | internal/logtail/process_tailer.go:365-393 | the last limit of the matching ones among the last ringSize entries, oldest first |
| LastLines.ReadFileLinesFiltered | pkg/util/file_filtered.go:19-74 | the last n lines that pass the filter, or all if n is not positive |
| LastLines.ReadFileLines | pkg/util/file.go:85-107 | read cyclically from the returned index, the result is the last n lines; an index is returned exactly if lines were dropped; for n = 0 the first line makes it fail |
| EventBus.Accepts | internal/eventbus/bus.go:18-47 | the two search loops decide membership in both lists, empty lists accepting all |
| EventBus.BothListsRestrict | internal/eventbus/bus.go:20-47 | each list of a filter restricts on its own, both together, and an empty one does not |
| EventBus.UnreadQueues | internal/eventbus/bus.go:94-117 | a subscriber that never reads has the first wanted events in a bus queue and the last ones in a tailer queue |
| EventBus.FanOut | internal/eventbus/bus.go:104-116 | in any order, every subscriber is offered the event once and refusals are counted exactly |
| EventBus.DeliveryIsExact | internal/eventbus/bus.go:104-116 | a subscriber gets what it wants while it has room, and only what it wants and has no room for is lost |
| EventBus.Bus.AppendRing | internal/eventbus/bus.go:119-128 | shifting the buffer by one keeps the last events |
| EventBus.Bus.Publish | internal/eventbus/bus.go:94-117 | the new state: numbered event in the history, every queue, the drop counter |
| EventBus.Bus.Subscribe | internal/eventbus/bus.go:133-148 | a fresh subscription under a fresh id |
| EventBus.Bus.Remove | internal/eventbus/bus.go:150-157 | exactly that subscription is closed and gone |
| EventBus.Bus.Stop | internal/eventbus/bus.go:173-180 | every subscription is closed and gone |
| EventBus.Bus.Since | internal/eventbus/bus.go:160-170 | exactly the retained events with a higher number, in order |
| EventBus.SinceIsExact | internal/eventbus/bus.go:160-170 | that is what has a higher number among the newest that fit, in order |
| Handshake.AppendGoesOutIff | internal/logtail/process_tailer.go:250-280 | when an appended entry is on its way to the subscriber, for tailer and bus |
| Handshake.DeliveryIsExact | internal/logtail/process_tailer.go:262-279 | what a delivery queues, and which entry a full queue loses, for tailer and bus |
| Handshake.ClientStepsAreExact | internal/api/logs.go:214-222 | what subscribing, the snapshot and receiving do |
| Handshake.NoGap | internal/api/logs.go:214-222 | a wanted entry retained at snapshot time or appended since is in the snapshot, in the queue, on its way, or lost to overflow |
| Handshake.RoomyQueueDropsNothing | internal/logtail/process_tailer.go:262-279 | nothing is lost while the queue never fills |
| Handshake.SettledMeansComplete | internal/api/events.go:46-58 | once deliveries settle, snapshot and queue together have everything |
| Handshake.OverlapIsInBoth | internal/api/events.go:46-58 | an entry from between the subscription and the snapshot reaches the queue as well as the snapshot |
| Handshake.RunsDeliverOnce | internal/logtail/process_tailer.go:250-280 | in every run an entry is delivered at most once, and only if it matches |
| Traffic.SeriesAreApart | internal/metrics/sampler.go:208 | the joined key keeps series apart if instance and scope names contain no bar |
| Traffic.Sampler.Take | internal/metrics/sampler.go:207-221 | the point is the delta against the latest reading of the same series |
| Traffic.DeltaIsExact | internal/metrics/sampler.go:198-221 | a point is that of its reading; it reports how far a counter has come, and nothing at first or after a fall |
| Traffic.ReportedIsClimb | internal/metrics/sampler.go:207-221 | whatever comes in between, the deltas of a series sum to its counter's upward steps |
| Traffic.ClimbIsDifferenceIff | internal/metrics/sampler.go:203-221 | that is last minus first if and only if the counter never fell, and more otherwise |
| Traffic.StartIsNear | internal/metrics/store.go:134-139 | a point lies in the step its bucket covers |
| Traffic.AnswerIsExact | internal/metrics/store.go:129-152 | the answer is in time order and each bucket has the sums and the maximum of exactly its points |
| Traffic.OnePointCounts | internal/metrics/store.go:129-152 | one more point counts exactly if it is of the series and in the closed interval, and then in one bucket |
| Traffic.StepsDefaultToMinutes | internal/metrics/store.go:129-139 | without a step a query takes minutes |
| Traffic.BucketsConserve | internal/metrics/store.go:129-152 | bucket sums equal point sums |
| Traffic.PruningIsInvisible | internal/metrics/store.go:154-163 | pruning does not change answers that start at or after the cutoff |
| Traffic.Store.InsertTraffic | internal/metrics/store.go:95-116 | all points or none |
| Traffic.Store.QueryTraffic | internal/metrics/store.go:129-152 | the query yields that answer |
| Traffic.Store.PruneBefore | internal/metrics/store.go:156-163 | exactly the older rows go, and their number is returned |
| Alerts.Engine.ApplyRule | internal/metrics/sampler.go:257-292 | memory, table and notes after one evaluation |
| Alerts.Engine.EvalRules | internal/metrics/sampler.go:227-255 | exactly the rules that apply are evaluated, in order |
| Alerts.ChosenIff | internal/metrics/sampler.go:227-255 | when a rule is evaluated, and what value it is given |
| Alerts.ChosenInOrder | internal/metrics/sampler.go:227-255 | every rule that applies is evaluated once, in the order of the rules |
| Alerts.BreachStartsIff | internal/metrics/sampler.go:294-306 | an evaluation starts a breach exactly if the value stands to the threshold as the operator says |
| Alerts.BreachEndsIff | internal/metrics/sampler.go:280-291 | it ends one exactly if not, and then resolves what has fired |
| Alerts.FiringIsRecorded | internal/metrics/sampler.go:263-279 | a breach fires when it has lasted long enough, and what is published and recorded then |
| Alerts.OtherRowsStay | internal/metrics/store_alerts.go:96-102 | rows of other rules and rows no longer firing are never changed |
| Alerts.FailedStatementsChangeNothing | internal/metrics/sampler.go:277-283 | a failing statement leaves the table alone, and nothing else depends on it |
| Alerts.Engine.InsertEvent | internal/metrics/store_alerts.go:88-93 | a taken key or a failing database refuses the row |
| Alerts.Engine.ResolveEvent | internal/metrics/store_alerts.go:96-102 | exactly the rule's firing rows become resolved |
| Alerts.RulesAreIndependent | internal/metrics/sampler.go:257-292 | what is remembered of a rule depends on its own evaluations only |
| Alerts.SinceIsBreachStart | internal/metrics/sampler.go:264-268 | the remembered time is that of the first evaluation of the breach under way |
| Alerts.FiredIffHeld | internal/metrics/sampler.go:263-291 | for positive, non-decreasing times: fired exactly while a breach is under way that has at some evaluation lasted long enough |
| Alerts.NotesAlternate | internal/metrics/sampler.go:267-291 | on every stream of one sampler the notes of a rule are firing and resolved in turn, and the last one tells its state |
| Alerts.TableAgreesIff | internal/metrics/store_alerts.go:88-102 | an evaluation keeps one firing row for a fired rule if and only if it is not a second firing within the same second |
| Alerts.OneFiringRowIff | internal/metrics/store_alerts.go:88-102 | whatever table a sampler starts on, with at most one evaluation a second there is one firing row while fired and none otherwise, if and only if no firing row was left to it or the rule has been resolved since |
| Alerts.RestartLeavesRow | internal/metrics/sampler.go:64-80 | after a restart while a rule is fired its row stays firing through any number of evaluations without a breach |
| Alerts.RestartDoublesRow | internal/metrics/sampler.go:264-278 | and when the rule fires again there are two firing rows |
| Alerts.SameSecondLosesRow | internal/metrics/sampler.go:269-278 | a rule over several instances can fire with no row to show for it |
| Alerts.TimeZeroForgets | internal/metrics/sampler.go:264-269 | a breach that starts at time 0 fires late |
| PromText.ValueInvertsEscape | internal/metrics/prom.go:116-134 | unescaping inverts escaping, whatever the value contains |
| PromText.ReadValue | internal/metrics/prom.go:116-134 | the index loop reads the escaped value and stops at its closing quote |
| PromText.ParseLabels | internal/metrics/prom.go:90-141 | the index loop ends on every segment and computes the specified map, or nothing if malformed |
| PromText.LabelsInvertPrinting | internal/metrics/prom.go:90-141 | any list of labels with plain keys is read back |
| PromText.LabelReadsBackIff | internal/metrics/prom.go:90-141 | a label comes back if and only if its key has no equals sign, no edge blanks and no leading comma |
| PromText.LineReadsBackIff | internal/metrics/prom.go:56-85 | a printed line gives back name, labels and number if and only if the name is trimmed, not empty and has no brace |
| PromText.NoNumberIsRefused | internal/metrics/prom.go:63-67 | a line whose last token is no number is no sample |
| PromText.OneTokenIsRefused | internal/metrics/prom.go:58-62 | a line of one token is none |
| PromText.UnclosedLabelsAreRefused | internal/metrics/prom.go:72-82 | nor is one whose labels are not closed |
| MergePatch.MergeMap | internal/api/configs.go:283-297 | in any order of members, the loop computes the specified merge |
| MergePatch.MeetsStandardIff | internal/api/configs.go:269-297 | that is the merge patch of the standard if and only if no object landing on a non-object contains a null |
| MergePatch.IdempotentIff | internal/api/configs.go:269-297 | applying the patch twice is applying it once, under the same condition exactly |
| Ingress.InsertHostnameRule | internal/api/cf_link.go:483-502 | the rule goes before the first catch-all; a list without one gets one |
| Ingress.InsertKeepsRouting | internal/api/cf_link.go:483-502 | who serves a request after an insertion, for any matching relation |
| Ingress.InsertKeepsShape | internal/api/cf_link.go:483-502 | hostname rules followed by one catch-all stay so |
| Ingress.EditsKeepShape | internal/api/cf_link.go:374-455 | so they do under replacement and removal |
| Ingress.RemoveUndoesInsert | internal/api/cf_link.go:429-455 | removing the inserted rule gives the list back |
| Ingress.InsertsAgreeIff | web/src/pages/cfIngress.ts:214-231 | on every list, daemon and console insert alike if and only if they agree on whether the list has its catch-all and the rules between their two places are the inserted one |
| Ingress.ShapedInsertsAgree | web/src/pages/cfIngress.ts:214-231 | so they do on every well-shaped list whose hostnames are not blank |
| Ingress.BlankHostsDisagree | web/src/pages/cfIngress.ts:199-201 | on a blank hostname they part ways |
| Ingress.ReplacingHitsItsRule | web/src/pages/cfIngress.ts:234-240 | replacing by the console hits the rule at the index and no other |
| Ingress.RemovingHitsItsRule | web/src/pages/cfIngress.ts:259-265 | so does removing, and the others stay in order |
| Ingress.ConsoleEndsInCatchAll | web/src/pages/cfIngress.ts:214-265 | every console edit leaves a catch-all at the end |
| Ingress.ReorderSeparates | web/src/pages/cfIngress.ts:250-256 | reordering puts the catch-alls after all hostname rules, which come in the order given |
| Ingress.ReorderKeepsRules | web/src/pages/cfIngress.ts:250-256 | reordering keeps the given hostname rules and the catch-alls with multiplicity |
| TunnelConfig.TunnelConfig.UnmarshalJSON | internal/cfapi/types.go:105-133 | in any order of keys, the fields are those of the document and nothing else is left over |
| TunnelConfig.TunnelConfig.MarshalJSON | internal/cfapi/types.go:136-163 | the document of the fields |
| TunnelConfig.TunnelConfig.Apply | internal/api/cf_link.go:339-451 | which edits are refused, and the rules after the others |
| TunnelConfig.DecodeInvertsEncode | internal/cfapi/types.go:105-163 | writing and reading gives the configuration back |
| TunnelConfig.UnknownKeysSurvive | internal/cfapi/types.go:90-163 | unknown top-level keys survive reading and writing |
| TunnelConfig.EncodeInvertsDecodeIff | internal/cfapi/types.go:105-163 | everything does if and only if no modelled value is null or empty |
| TunnelConfig.EditConfig | internal/api/cf_link.go:325-451 | one request between reading and writing back |
| TunnelConfig.EditsHitTheirRule | internal/api/cf_link.go:339-451 | an edit changes the rule it names and no other, and stores what was given with blanks trimmed |
| TunnelConfig.RefusedIff | internal/api/cf_link.go:336-341 | an edit is refused exactly if it names no hostname rule or leaves hostname or service blank |
| TunnelConfig.DecodableIff | internal/cfapi/types.go:105-133 | a document is refused exactly if a modelled value is of another kind |
| TunnelConfig.WrittenIff | internal/api/cf_link.go:345-355 | an edit is written back exactly if the document can be read and the edit is not refused |
| TunnelConfig.EditedRawIsExact | internal/api/cf_link.go:325-451 | an edit changes the rules as specified, keeps their shape and touches no unknown key |
| TunnelEdits.NoUpdateIsLost | internal/api/cf.go:33-43 | in every state of every run the remote configuration of a tunnel is the composition, in lock order, of the edits written back |
| TunnelEdits.RemoteIsWhatWasWritten | internal/api/cf_link.go:339-451 | in every run the remote configuration is what the writes that took effect made of it, each applying the edit that arrived to what the one before left, as read off the steps alone |
| TunnelEdits.RequestsAreArrivals | internal/api/cf_link.go:339-451 | in every run the requests are those that arrived, and the committed ones those whose write took effect |
| TunnelEdits.CommitComposes | internal/api/cf_link.go:339-355 | a write is its edit applied to what was there, at the writer's place in the lock order |
| TunnelEdits.PutIsExact | internal/api/cf_link.go:352-355 | a write that takes effect stores the edit of what was there and commits the request, one that does not leaves both alone, and neither touches anything else |
| TunnelEdits.OnlyPutsWrite | internal/api/cf_link.go:339-451 | nothing else changes what the remote side holds |
| TunnelEdits.FreeEditGoesThrough | internal/api/cf_link.go:339-355 | an edit whose lock is free can go all the way, stores its result or is refused, and frees the lock |
| TunnelEdits.HeldLockIsRefused | internal/api/cf.go:33-43 | while one request has the lock of a tunnel, no other gets it |
| TunnelEdits.LocksAreApart | internal/api/cf.go:33-43 | tunnels of accounts without a bar in their ids have locks of their own |
| TunnelEdits.ConcurrentEditsKeep | internal/api/cf_link.go:325-502 | however many edits run at once, the shape of the rules and all unknown keys are kept |
| Zones.ZoneCandidates | internal/api/cf_link.go:559-566 | joining the labels from each position gives the ancestors of the name, without its last label alone |
| Zones.TrimsOneDot | internal/api/cf_link.go:560 | one trailing dot is taken off, and nothing else |
| Zones.FindZone | internal/api/cf_link.go:571-587 | the first candidate that has a zone decides; a remote failure ends the search |
| Zones.ZoneCache.ZoneFor | internal/api/cf_link.go:599-625 | the cached lookup agrees with the uncached one after any history, and an answered name is never asked for again |
| Zones.PickZone | web/src/pages/cfIngress.ts:273-283 | the loop's pick |
| Zones.PickIsLongest | web/src/pages/cfIngress.ts:273-283 | the pick owns the hostname and no listed zone that does is longer |
| Zones.FindAgreesWithPickIff | internal/api/cf_link.go:571-587 | asking and picking agree if and only if the pick is not a zone of a single label; with a trailing dot, if and only if the trimmed name has no zone of more than one |
| Dns.Account.EnsureTunnelCNAME | internal/api/cf_link.go:505-536 | without an owning zone it fails and nothing changes; else that zone alone changes, and when it succeeds, what it writes and how often it asks are given, for every outcome of the requests |
| Dns.Account.DeleteTunnelCNAME | internal/api/cf_link.go:539-554 | likewise: which zone, when it succeeds, and what goes |
| Dns.Reports.Status | internal/api/cf_link.go:627-652 | whatever was reported on before, the report with remembered zones and pages is the one without |
| Dns.UpsertAchieves | internal/api/cf_link.go:505-536 | an upsert whose requests work leaves a proxied CNAME that points where it should; how often it writes and asks; a failed one changes nothing |
| Dns.UpsertIsIdempotent | internal/api/cf_link.go:505-536 | upserting again writes nothing, under the condition of convergence |
| Dns.DropAchieves | internal/api/cf_link.go:539-554 | a deletion whose requests work takes the shown CNAME away and nothing else; a failed one changes nothing |
| Dns.OwnerIsFound | internal/api/cf_link.go:505-509 | the zone edited is the one the lookup finds |
| Dns.SettledIff | internal/api/cf_link.go:517-522 | nothing is left to do exactly if the shown CNAME points where it should and is proxied |
| Dns.ListingsShowAHundred | internal/cfapi/client.go:286-299 | a listing shows the first hundred records, of the zone or of a host |
| Dns.EnsuredIsThere | internal/api/cf_link.go:511-536 | after an upsert there is a proxied CNAME of the host that points where it should |
| Dns.SeenIsFirst | internal/cfapi/client.go:286-299 | a listing by name shows the zone's first CNAME of the host if less than a page of the host's records precede it |
| Dns.EnsureConvergesIff | internal/api/cf_link.go:505-536 | a second upsert writes nothing if and only if the record was there or lands on the first page |
| Dns.EnsureLeavesOthers | internal/api/cf_link.go:505-536 | records of other hosts and kinds are untouched |
| Dns.ReportOn | internal/api/cf_link.go:639-651 | the report is what the first CNAME of the host on the listing says |
| Dns.LookupTells | internal/api/cf_link.go:627-652 | a report is about the first page of the zone that the lookup finds, and is missing only if lookup or listing fails |
| Dns.ReportsTell | internal/api/cf_link.go:639-652 | what a report says of that record, and that it is empty without one |
| Dns.ReportSeesIff | internal/api/cf_link.go:627-652 | after convergence the report says in sync if and only if the record is on the zone's first page |
| Dns.BigZoneHidesRecord | internal/cfapi/client.go:286-299 | behind a full page a record in sync is reported as absent |
| Dns.DeleteClearsIff | internal/api/cf_link.go:539-554 | nothing of the host is left if and only if it had one CNAME, and then the report says absent |
| Hostnames.BuiltAs | web/src/pages/cfIngress.ts:333-338 | a hostname is prefix, dot and zone, and of an empty part nothing is left |
| Hostnames.SplitInvertsBuildIff | web/src/pages/cfIngress.ts:333-352 | splitting inverts building if and only if no longer listed zone owns the name and the first of its name is spelled alike |
| Hostnames.BuildInvertsSplitIff | web/src/pages/cfIngress.ts:333-352 | building inverts splitting, up to letter case, exactly for trimmed names whose prefix is clean |
| Hostnames.ServicesReadAs | web/src/pages/cfIngress.ts:18-63 | what a service of each type reads like |
| Hostnames.ParseInvertsBuildIff | web/src/pages/cfIngress.ts:31-55 | parsing inverts building exactly for trimmed targets, but for an empty status code |

## Left out

- HTTP handlers, authentication, WebSockets, the Cloudflare REST client and the release
  proxy: remote answers are parameters or oracles.
- YAML and JSON syntax, SQLite, encryption and the file system: values, tables and maps
  stand for them. Tags are paths in the manner of Unix, below a root without symbolic links;
  the `current` link that activation refreshes is not part of the store's state.
- Archive extraction, checksums and mirror failover of a download: only whether the tag
  ends up installed.
- Which samples of a scrape feed which column of a traffic point (`toPoints`).
- Error texts, `lastErr`, metrics ports, published progress events and log lines.
- Wall-clock time, signals, job objects and orphan scanning: a grace period is a choice of
  outcome, and escalation is a sequence of stages.
- Numbers in tags with a sign: `+` and `-` end the part of a tag that is read, so none occurs.
- Unicode: trimming, case folding and prefixes are those of ASCII text, and bytes are
  characters.
- The parsing of one log line (`parseLine`) is an arbitrary function; of an entry only the
  fields that filters look at are kept.
- Two producers that publish at once on the event bus: `EventBus` runs one publication at a
  time, since numbers are taken before the ring lock and their order is not promised;
  `Handshake` has any number of deliveries under way.
- Closing a tailer's subscription while an entry is being delivered to it.
- Overflow of 64-bit counters, and floating point: metric values are reals or opaque text.
- The seconds conversion and the origin-request form fields of the console.
- Unknown keys inside one ingress rule or inside the warp-routing object: the daemon drops
  them on every edit, and the model has no place for them.
- Replacing a whole configuration, which takes no lock and so can undo a concurrent edit.
- Pages of zones: the console picks from the list it is given, which the daemon fetches as
  one page of 50.
- Changes on the remote side while one listing request is under way (`Dns.Reports.Status`).
- MergePatch.MergeMap: nested objects are values here, while the source updates them in
  place; a JSON null as the base document is not modelled.
- Retention.Prune: asks for a store whose directories have names that a file system allows,
  which every operation keeps (`BinStore.ApplyKeepsNames`).
- Updater.Engine.Run: is one body without activations, deletions or installations by the
  handlers at the same time. Bodies that such writes come into are those of `Bodies` and
  `EngineRuns`, where one download, one attempt at an instance and one deletion are each a
  single step.
- EngineRuns.ScheduledRunsNeverDowngrade: is about runs without writes by handlers, which can
  make it fail (`EngineRuns.HandlerIsOverridden`).
- UpdaterLaws.RestartRevertsCompletely: asks that the old version differs from the new one and
  is still accepted, because otherwise it does not revert (`UpdaterLaws.RollbackRestoresIff`).
- UpdaterLaws.RunKeepsRunnable: asks that the run's own download is gentle, neither cleaned up
  over the active version nor activated so that nothing can run; what a corrupt one does is in
  `UpdaterLaws.CorruptDownloadIff`.
- BinStore.Store.Delete: a removal takes everything or nothing, while that of a directory can
  fail half-way; so `undeletable` versions stay installed (`Retention.Survivors`), where in the
  source a failed removal may already have taken the binary.
- Alerts.OneFiringRowIff: assumes that the database works (a statement that fails is in
  `Alerts.Engine.ApplyRule` only) and that a rule is evaluated at most once a second, restarts
  included (`Alerts.SameSecondLosesRow` shows why).
- Alerts.FiredIffHeld: assumes positive times that do not run backwards
  (`Alerts.TimeZeroForgets` shows why).
- Dns.EnsureConvergesIff: assumes that record ids are unique within a zone.
- Dns.Account.EnsureTunnelCNAME: one edit of a zone's records at a time.
- Hostnames.BuildInvertsSplitIff: assumes that listed zone names have no blanks or dots at
  their edges.
- Zones.FindAgreesWithPickIff: assumes that the remote side filters zones by name whatever
  the case, keeping their order, and for a hostname with a trailing dot that no zone name ends
  in one.
- TunnelEdits.NoUpdateIsLost: is about edits that hold the mutex of their tunnel in this
  process; another process is not part of the model.
- Account storage, settings, backups, import and export, and the pages of the console: flat
  checks that would only add easy members.
