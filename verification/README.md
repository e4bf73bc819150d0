# Verification model of the folder synchronizer

This project models the change pipeline of the folder synchronizer in Dafny and proves what it keeps.
It has four parts.

**From file system events to scan requests** (`service/watcher.go`). `Accumulation` is the transition
function of `accumulateChanges`: the tracked paths, the interval, the timer, the reminder time and the
log of requests. `Watcher` is the loop as code, a class proved to go through the states of that
function. `Aggregation` is `aggregateChanges` as code, on the caller's slice and on maps walked in any
order, proved against recursive specifications; `Scores` gives the scores in closed form, `Sweeping`
and `ScanList` say what the sorted sweep makes of them, `FolderChange` what becomes of a change of
the folder itself. `Runs`, `Latency`, `Independence`, `Overflow`, `OverflowRun` and `Pace` are about
whole runs. `EventFeed` is the long poll for Syncthing's events, and `Announcements` follows them into
the map of tracked paths. Time is an explicit clock that events carry, and the file system is an
arbitrary function from paths to statuses.

**The notify tree the watcher runs on** (`deps/github.com/zillode/notify`). `Watchpoints` and
`WatchpointMaps` are the event sets of one node with the cached union, `TriePaths`, `TreeNames`,
`ChildNames` and `Traversal` the path trie and the explicit-stack walks, `Walking`, `Stopping` and
`Dispatching` what the operations do to the nodes, and `NotifyTree` the tree as a class. Its invariant
is that the mask last handed to the OS for each path is the total of the path's node, and absent
exactly if that is 0; each operation keeps it, or says exactly when it does not. `Coverage` is a second
invariant: what the tree asks for on a directory it asks for on every directory below.

**Configuration reconciliation** (`service/service.go`, `service/backend/backend.go`,
`service/backend/k8s_backend.go`). `Reconciliation` interleaves triggers with the steps of the update
loop, `TriggerCounter` compares its 32-bit counter with the number of triggers, `Reconfiguration`
proves that no trigger is lost up to a wrap-around, `AppliedConfiguration` compares what Syncthing
holds with what the service believes it holds, and `Service` is the same as code. `Registrations` and
`Decimal` are the canonical string used to detect changes and the announced address.
`KubernetesBackend` is the cache behind Watch and Get.

**The announcement lease** (`service/backend/etcd_backend.go`). `Lease` is the refreshed key with a
time to live, as a timed transition system and as a class.

`Strings` and `Paths` hold the byte-order, split and join, and path-cleaning facts the rest needs.
Strings are sequences of characters, one for each byte.

Where the code does less than its comments or a reader would expect, the model follows the code, a
lemma shows the case and another says exactly when it happens:

- The comment at `service/watcher.go:211` rules out redundant scans; the sweep compares bytes, so a
  neighbour such as "a-b" brings them back (`ScanList.RedundantWitness`,
  `ScanList.RedundantIffIntruder`).
- A changed "file" that holds another changed file can lose its own scan (`ScanList.StrandedWitness`,
  `ScanList.InputCoveredIff`).
- A path that cleans to "." is dropped if it sorts first (`FolderChange.FolderAloneIsLost`,
  `Aggregation.FolderKeptIff`); if not, it is scanned (`FolderChange.FolderIsScanned`).
- A change discarded on overflow can be missed by the next report if ItemFinished events shrink the map
  before the flush (`OverflowRun.ForgottenInARun`, `Overflow.DiscardedIsCoveredIff`); without events
  that name paths it is not (`Overflow.OverflowIsReported`).
- A configuration stored before a failed restart is not noticed if the registry goes back
  (`AppliedConfiguration.StaleInARun`, `AppliedConfiguration.SettledIsCurrentIff`).
- The 32-bit trigger counter misses triggers once it wraps around (`TriggerCounter.DeafForEver`,
  `TriggerCounter.TriggerNoticedIff`).
- Watching an ignored directory recursively puts its total ahead of the OS, on a node without
  watchpoints always (`Walking.IgnoredRootDrifts`, `NotifyTree.Tree.WatchRec`), and so does a recursive
  watch the OS refuses in the middle (`NotifyTree.Tree.WatchRec`). Stopping leaves the masks behind
  exactly where the OS refuses (`Stopping.InStepIff`).
- The Kubernetes cache can stick to devices that are gone (`KubernetesBackend.StuckCache`,
  `KubernetesBackend.GetIsCurrentIff`).
- Below "/" a recursive watch stores directories under the wrong keys (`ChildNames.KeyIsNameIff`) and
  where no event finds them: it hears no more than a plain one (`ChildNames.SlashHearsOnlyItsOwn`,
  `ChildNames.StoredInSlashIsDeaf`).

## Model

| member | source | states |
|---|---|---|
| `Strings.SortStrings` | service/watcher.go:355 | `sort.Strings` in place: the slice ends up holding the one sorted arrangement of its elements |
| `Strings.SortedUnique` | service/watcher.go:355 | two sorted lists with the same elements, counted, are equal, so the sort algorithm and the input order do not matter |
| `Strings.SplitJoin` | service/backend/backend.go:43-53 | splitting undoes joining when no piece holds the separator |
| `Strings.JoinSplit` | service/backend/k8s_backend.go:217-222 | joining undoes splitting, for every string and separator |
| `Paths.CleanIdempotent` | service/watcher.go:347-351 | cleaning a path twice is cleaning it once, keeps it rooted or not, and never gives the empty path |
| `Paths.DirIsParent` | service/watcher.go:421-424 | on a clean relative path `filepath.Dir` is the part before the last separator, "." standing for the folder itself |
| `Paths.BeneathParent` | service/watcher.go:421-436 | a directory lies above a path exactly if it is its parent or lies above its parent, and never both, so no directory is credited twice |
| `Paths.IntruderHasLowByte` | service/watcher.go:442-459 | only a path that continues a directory's name with a byte below "/" can sort between the directory and something beneath it |
| `Paths.LowByteIntrudes` | service/watcher.go:442-459 | and every such path does sort there |
| `Aggregation.CleanPaths` | service/watcher.go:347-351 | cleans every element of the caller's slice in place |
| `Aggregation.SortedUniqueAndCleanPaths` | service/watcher.go:353-368 | leaves the caller's slice cleaned and sorted with its repetitions, and returns the list without them |
| `Aggregation.OnlyTheSetMatters` | service/watcher.go:353-368 | two slices that clean to the same set of paths give the same list, whatever their order and repetitions, "." included |
| `Aggregation.SortedUniqueAndCleanIsSortedSet` | service/watcher.go:353-368 | when nothing cleans to ".", the list is the strictly sorted enumeration of the set of cleaned paths |
| `Aggregation.FolderKeptIff` | service/watcher.go:357-365 | a path that cleans to "." survives, as "", exactly if some cleaned path sorts before "." |
| `FolderChange.FolderIsScanned` | service/watcher.go:357-365 | if it survives, and the folder is not reported as a file, the scan list is the whole folder and nothing else, whatever else changed |
| `FolderChange.FolderAfterDash` | service/watcher.go:357-365 | so the slice "-a", "." becomes "-a", "" and leads to a scan of the whole folder |
| `FolderChange.FolderAloneIsLost` | service/watcher.go:357-365 | while the slice "." alone becomes empty and leads to no scan at all |
| `Aggregation.CreditAncestors` | service/watcher.go:429-436 | in whatever order the map is walked, exactly the tracked directories strictly above the path gain one |
| `Aggregation.ScorePath` | service/watcher.go:402-436 | one turn of the scoring loop: the path is recorded by its status, then the tracked directories above are credited |
| `Aggregation.ScorePaths` | service/watcher.go:393-437 | the loop over the paths computes the score map of the specification |
| `Aggregation.SortedKeys` | service/watcher.go:438-442 | collecting the map keys in any order and sorting them gives the strictly sorted key set |
| `Aggregation.SweepKeys` | service/watcher.go:443-465 | the last loop, with its early exit at "", gives the scans of the full sweep |
| `Aggregation.AggregateChanges` | service/watcher.go:393-466 | the scan list of the specification, and what becomes of the caller's slice |
| `Aggregation.DoneStays` | service/watcher.go:460-463 | once the whole folder is scanned the rest of the keys changes nothing, so breaking off is safe |
| `Scores.ScoresAreClosedForm` | service/watcher.go:401-437 | on sorted proper inputs the incremental scores equal a closed form over the set of inputs: a directory has the number of inputs strictly beneath it from its first direct file on, the folder its direct files, a deleted path or directory dirVsFiles more, a file -1 |
| `Scores.AbsoluteFolderIsProper` | service/watcher.go:403-404 | under an absolute folder every clean relative path is untouched by the prefix trimming |
| `Scores.TrimUndoesJoin` | service/watcher.go:403-404 | and the trimming takes the folder and the separator off a full path |
| `Scores.GainIsCredit` | service/watcher.go:417-436 | the `++` on the parent of a file and the credit loop together add at most one, and exactly to the directories above that are tracked |
| `Sweeping.SweepShape` | service/watcher.go:443-465 | the scans are qualifying keys in strictly sorted order, `previousPath` is the last of them, and "" can only be the sole scan |
| `Sweeping.WorthIsCovered` | service/watcher.go:443-465 | every qualifying key is scanned, lies beneath a scan, or "" is scanned |
| `Sweeping.WholeFolder` | service/watcher.go:460-463 | if "" qualifies it is the only scan, and it is scanned only then |
| `Sweeping.RedundantIffIntrusion` | service/watcher.go:442-464 | for arbitrary keys and scores: the scans hold a directory and something beneath it if and only if "" does not qualify and something qualifying sorts between a topmost qualifying directory and a qualifying path beneath it without being beneath it |
| `ScanList.AggregateIsScanList` | service/watcher.go:393-466 | the scan list is a function of the set of cleaned paths |
| `ScanList.AggregateIgnoresOrder` | service/watcher.go:298-306 | paths arrive in map order: two slices with the same set of cleaned paths give the same scan list |
| `ScanList.ScansQualify` | service/watcher.go:453-459 | every scan is a changed path or the directory of a changed file, with a score of at least dirVsFiles or of -1 |
| `ScanList.CoveredIffQualified` | service/watcher.go:443-465 | any path is covered by the scans if and only if it, a directory above it or the folder qualifies |
| `ScanList.InputQualifies` | service/watcher.go:405-436 | an input qualifies unless it is a file with another input file directly in it and no more than dirVsFiles inputs counted beneath it; deleted paths and directories always do |
| `ScanList.InputCoveredIff` | service/watcher.go:401-465 | a changed path is covered by the scan list if and only if it is not stranded, that is, not a file that lost its -1 below nothing that qualifies |
| `ScanList.EveryInputCoveredIff` | service/watcher.go:401-465 | all changed paths are covered if and only if none is stranded |
| `ScanList.EveryInputCovered` | service/watcher.go:401-465 | when no input file is the parent of another input file, every changed path is scanned, lies beneath a scan, or the whole folder is scanned |
| `ScanList.SomethingIsScanned` | service/watcher.go:438-466 | if anything changed, the scan list is not empty |
| `ScanList.FewChildrenStrand` | service/watcher.go:425-426 | a whole family of stranded files: a file with other changed files in it, too few to count |
| `ScanList.StrandedWitness` | service/watcher.go:425-426 | the concrete case: "a" and "a/b", both files, leave "a" unscanned |
| `ScanList.RedundantIffIntruder` | service/watcher.go:211-212 | the scan list is redundant if and only if the folder does not qualify, something qualifies beneath a topmost qualifying directory, and some qualifying path continues that directory's name with a byte below "/" |
| `ScanList.NoRedundantScans` | service/watcher.go:211 | without bytes below "/" in the changed paths no scan lies above another |
| `ScanList.RedundantWitness` | service/watcher.go:211 | the concrete case: "a", "a-b", "a/c" are all scanned |
| `ScanList.AtMostOneScanPerInput` | service/watcher.go:438-465 | a scan list without redundancy is no longer than the set of changed paths |
| `ScanList.ScannedDirectoryIsBusy` | service/watcher.go:390-392 | a scan that is not itself a changed path has at least dirVsFiles changed paths strictly beneath it |
| `ScanList.BusyDirectoryIsScanned` | service/watcher.go:212 | with dirVsFiles changed files directly in a directory, it or a directory above it is scanned, and none of the files is listed if it is the folder itself or the list is not redundant |
| `Watcher.Accumulator.constructor` | service/watcher.go:214-232 | the loop starts with no tracked paths, the slow interval, one reminder unless disabled, and a timer to be armed |
| `Watcher.Accumulator.ReceiveSt` | service/watcher.go:239-260 | a Syncthing event: speed up, stop tracking, discard when full, or track as Syncthing's |
| `Watcher.Accumulator.ReceiveFs` | service/watcher.go:261-279 | a file system event: speed up, then cancel against a Syncthing entry, discard when full, or track |
| `Watcher.Accumulator.CollectPaths` | service/watcher.go:296-310 | in any map order, drops the empty path and expired Syncthing entries and collects exactly the changes older than the interval, the clock being read anew for each path |
| `Watcher.Accumulator.InformPaths` | service/watcher.go:316-323 | sends the scan list of the due paths; on success deletes what the slice holds, which is the cleaned paths |
| `Watcher.SameAggregate` | service/watcher.go:316-323 | the scan list depends on the set of due paths, not on the order in which the map yielded them |
| `Watcher.Accumulator.Flush` | service/watcher.go:280-342 | a flush does what the transition function says in all its branches; what that means for a change, an announcement, the interval, the timer and the reminders is proved of every run in `Runs`, `Independence` and `Pace` |
| `Watcher.AccumulateChanges` | service/watcher.go:214-345 | the whole loop over any sequence of events goes through the states of a run of the transition function |
| `Runs.RunKeepsInv` | service/watcher.go:233-344 | in every state of every run at most maxFiles+1 paths are tracked, tracked changes are clean paths, and a tracked change forces the fast interval |
| `Runs.NothingLost` | service/watcher.go:233-344 | over any stretch of any run a tracked change stops being tracked only because a successful request covered it, a Syncthing event named it, it is the empty path, or it was stranded |
| `Runs.ChangeIsReported` | service/watcher.go:233-344 | on a consistent file system, and if Syncthing does not name the path, that is always a successful request covering it |
| `Runs.FlushedIsReported` | service/watcher.go:280-343 | one flush forgets a change only if its request succeeded and covers it |
| `Overflow.RequestsNameSomething` | service/watcher.go:313-326 | so no scan request of any run has an empty list, which would stand for the whole folder |
| `Latency.BoundedLatency` | service/watcher.go:234-237 | with timer lateness at most L and requests that succeed at once, a change accepted at t with no later event on its path is covered by a request sent by t + 2 debounceTimeout + L, whatever other paths do |
| `Latency.WaitingStep` | service/watcher.go:261-308 | every turn either reports a waiting change or leaves the timer due within two debounce intervals of it |
| `Independence.RunIsAutomaton` | service/watcher.go:239-334 | in every run, however many paths are tracked, the entry of a path is what a three-state automaton makes of the path's own events and the flushes |
| `Independence.PathsDoNotInterfere` | service/watcher.go:239-334 | two runs that agree on what a path sees agree on its entry |
| `Independence.AnnouncementStaysIff` | service/watcher.go:280-334 | over any step that does not name the path, an entry of Syncthing stays with its time unless a flush finds fewer than maxFiles paths and the entry expired; a scan of the whole folder keeps it |
| `Independence.EchoIsSuppressed` | service/watcher.go:267-272 | a write announced by ItemStarted and seen once on disk before expiry leaves the path untracked, whatever else is tracked |
| `Independence.EchoIsNeverReported` | service/watcher.go:239-334 | and from the announcement on, if it finds room, the path is never tracked as changed, so the write is never reported, through overflows and scans of everything |
| `Independence.ReportedOnce` | service/watcher.go:311-334 | two scans asked for on account of a path, the first of which succeeds, have a change of the path on disk between them |
| `Pace.FastWhileHurried` | service/watcher.go:239-245 | the loop runs at the debounce interval exactly from a change on disk or a notice of incoming changes until a flush finds nothing tracked, and at the slow interval otherwise |
| `Pace.FlushFollows` | service/watcher.go:234-245 | either is followed by a flush within a debounce interval and the lateness of the timer |
| `Pace.FlushesApart` | service/watcher.go:233-238 | flushes are at least a debounce interval apart, counted from the end of one, and while nothing hurries the loop at least the interval it has set itself |
| `Pace.FlushEnds` | service/watcher.go:311-342 | a flush ends with its scan if it sends one |
| `Pace.StartReminds` | service/watcher.go:213-230 | the loop starts with a reminder and an interval of delayScan less five seconds; if reminders are disabled none is ever sent and the interval is 9999 hours |
| `Pace.RemindsIff` | service/watcher.go:282-285 | a reminder is sent exactly by a flush more than one slow interval after the last reminder or successful scan |
| `Pace.DelayedInTime` | service/watcher.go:282-338 | the time since the last of these stays below twice the slow interval, a debounce interval, a flush and twice the lateness of the timer |
| `Announcements.EntryArrives` | service/watcher.go:239-260 | what each entry of Syncthing's event log does to the tracked paths and the interval when it arrives |
| `Announcements.LoggedWriteIsNeverReported` | service/watcher.go:239-334 | if the entry of a started item arrives and its path is seen on disk once before that expires, the write is never reported |
| `Overflow.OverflowIsReported` | service/watcher.go:274-277 | if Syncthing names no path, then once the map is full it stays full until a request succeeds, and the first that succeeds is for the whole folder, through any number of failures |
| `Overflow.DiscardedIsCoveredIff` | service/watcher.go:274-343 | in every run, whatever Syncthing names: a change of an untracked path is discarded if and only if more than maxFiles paths are tracked, and the first successful request after it covers the path if and only if at least maxFiles paths are tracked when that flush comes, or a due path that qualifies is the path or lies above it |
| `OverflowRun.ForgottenInARun` | service/watcher.go:233-344 | a run from the start that forgets a change, for every configuration with maxFiles of at least 2: maxFiles+1 changes, one more that is discarded, two ItemFinished events, and a successful flush whose request does not cover the discarded path |
| `Overflow.FlushReportsDueOnly` | service/watcher.go:297-323 | and then a flush requests exactly the scan list of the due paths it tracks |
| `EventFeed.Feed.Poll` | service/watcher.go:471-509 | one turn of the long poll: a closed watcher ends the loop, a connection closed by this side changes nothing, other errors reset the ID, a null body is skipped, otherwise the relevant events are forwarded in order; an empty list indexes out of range |
| `EventFeed.ForwardedTranscribes` | service/watcher.go:496-507 | what goes into the channel corresponds one to one, in order, to the entries that are index updates or started or finished items; the path is the item, empty for an index update, and the flag is set for finished items only |
| `EventFeed.ForwardsExactlyOnce` | service/watcher.go:471-509 | against a server that appends to its log and answers with the next events, what was forwarded since the last error is exactly the relevant part of an initial piece of the log, once and in order, and no answer panics |
| `EventFeed.ChannelTranscribesLog` | service/watcher.go:471-509 | so since the last error the channel transcribes an initial piece of the log, once and in order, and nothing else |
| `EventFeed.NothingIsLeftOut` | service/watcher.go:496-508 | after each answer that piece reaches up to the last event of the answer |
| `EventFeed.ReturnedIff` | service/watcher.go:474-485 | only a closed watcher ends the loop |
| `EventFeed.ErrorFreeFeed` | syncthing/api.go:138-153 | without errors that is everything that was forwarded |
| `EventFeed.ErrorReplays` | service/watcher.go:488-491 | after an error the next answer starts at the first entry of the log again |
| `Registrations.FullStringOfList` | service/backend/backend.go:43-59 | the canonical string: the renderings, sorted and joined; "" for an empty list |
| `Registrations.ChangeDetectionIsExact` | service/service.go:253-257 | two device lists have equal strings if and only if they hold the same registrations, each equally often: if IDs hold no comma and IPs no dash, or if all IDs have one length and IPs hold no comma, ports being no less than 0 in both cases |
| `Registrations.JoinIsInjective` | service/backend/backend.go:47-59 | under these conditions the joined string can be taken apart in one way only, even with commas in IPs or IDs: from the right at dashes and commas, or from the left by the length of an ID |
| `Registrations.FullStringInjective` | service/backend/backend.go:43-45 | under the same conditions the string of one registration determines it |
| `Registrations.CommaCollision` | service/backend/backend.go:53-59 | a comma in an ID makes one registration look like two |
| `Registrations.CommaInIpCollision` | service/backend/backend.go:53-59 | so does a comma in an IP that also holds dashes, even if all IDs have one length |
| `Registrations.DashCollision` | service/backend/backend.go:43-45 | a dash can move between ID and IP unnoticed if IDs differ in length |
| `Registrations.NegativePortCollision` | service/backend/backend.go:43-45 | the sign of a negative port looks like a separator, or like a dash of the IP |
| `Decimal.ItoaAtoi` | service/backend/etcd_backend.go:204-218 | `strconv.Atoi` undoes `strconv.Itoa` on the whole 64-bit range |
| `Decimal.DigitsInjective` | service/backend/backend.go:43-45 | different numbers print differently |
| `Registrations.AnnouncedAddress` | service/service.go:143 | parsing the announced address gives host and port back if and only if the host holds neither ":" nor "%"; a ":" is always rejected, a lone "%" leaves brackets around the host |
| `Reconfiguration.NoLostReconfiguration` | service/service.go:204-238 | under any interleaving of any number of triggers with the update loop, whenever the last successful pass has seen all triggers, `lastDevices` renders the latest snapshot the backend returned, and that was after the last trigger |
| `Reconfiguration.CaughtUpIff` | service/service.go:207-217 | equal counters mean that it has seen all triggers if and only if fewer than 2^32 came since the last successful pass |
| `Reconfiguration.FailedUpdateIsRetried` | service/service.go:210-213 | a failing update leaves `lastDevices` and the loop's counter alone, and the next look at the counter starts another if and only if the triggers are ahead of the committed ones modulo 2^32, as they are until the counter wraps around |
| `Reconfiguration.ReadsFirst` | service/service.go:242-312 | over all runs: the devices are asked for, a configuration is stored, `lastDevices` changes or triggers are counted as served only in a pass that has read Syncthing's configuration, and no reading of it failed in that pass |
| `AppliedConfiguration.AppliedMatchesIff` | service/service.go:302-312 | in every run, with any number of triggers: the configuration Syncthing holds renders as `lastDevices` if and only if no SetConfig reached it after the last update that ended |
| `AppliedConfiguration.SettledIsCurrentIff` | service/service.go:204-238 | once the last successful pass has seen all triggers, Syncthing holds the configuration of the latest snapshot, taken after the last trigger, if and only if that is so |
| `AppliedConfiguration.RevertedRegistryIsStale` | service/service.go:302-312 | the failing family: from any settled state, a configuration stored before a failed restart stays in place, unnoticed, if the registry goes back to what `lastDevices` renders |
| `AppliedConfiguration.StaleInARun` | service/service.go:204-238 | a run from the start that ends so: the loop has caught up and `lastDevices` renders the latest, empty snapshot while Syncthing holds other devices |
| `TriggerCounter.CountersAreModular` | service/service.go:207-238 | in every run the shared counter is the number of triggers modulo 2^32, and the loop's counter the number of triggers seen by its last successful pass modulo 2^32 |
| `TriggerCounter.NoticedIff` | service/service.go:207-210 | in any run that stands idle the next look at the counter starts an update if and only if no signal came and the number of triggers exceeds, modulo 2^32, the number at the last successful pass |
| `TriggerCounter.TriggerNoticedIff` | service/service.go:207-238 | so a trigger is taken up at the next look if and only if the number of triggers with it exceeds the committed one modulo 2^32 |
| `TriggerCounter.SignalStopsUpdates` | service/service.go:207-210 | after a signal no update is begun |
| `TriggerCounter.UnwrappedIff` | service/service.go:207-210 | for fewer than 2^32 uncommitted triggers that comparison fails exactly when the counter has wrapped around since the last successful pass |
| `TriggerCounter.DeafForEver` | service/service.go:207-210 | a run from the start after which no trigger is ever noticed, whatever follows: 2^32 - 1 triggers and one successful pass |
| `Service.Reconciler.TriggerUpdate` | service/service.go:235-238 | the counter goes up by one, modulo 2^32 |
| `Service.Reconciler.UpdateSyncthing` | service/service.go:241-318 | updateSyncthing succeeds exactly if Syncthing's configuration and the devices can be read, and the devices render as before or are stored and Syncthing restarts; `lastDevices` changes only then, a configuration is stored exactly if it was read, differs and SetConfig takes effect; the steps are those of the interleaving model |
| `Service.PassOutcome` | service/service.go:206-217 | the same for a pass: the triggers seen count as served exactly if the loop looked, and the update succeeded |
| `Service.Reconciler.ConfigPass` | service/service.go:206-217 | one pass of configLoop is its sequence of steps, ending idle |
| `Lease.AtMostOneLoop` | service/backend/etcd_backend.go:114-117 | at most one refresh loop is ever started, and one runs whenever something is announced |
| `Lease.StartedIff` | service/backend/etcd_backend.go:103-117 | it runs from the first announcement of a device and an address on |
| `Lease.TakenUpInTime` | service/backend/etcd_backend.go:114-149 | any action later than the first turn of the loop after an announcement, and what it may oversleep, is preceded by a turn |
| `Lease.FirstTurnIsSoon` | service/backend/etcd_backend.go:114-149 | that turn is due at once if the announcement starts the loop, and else within half a time to live |
| `Lease.AnnouncedInTime` | service/backend/etcd_backend.go:103-172 | so if at most k refreshes failed in a row since the announcement, the key of the device is alive at every action k retries, and the oversleeping, after that turn |
| `Lease.KeyShowsAnnouncement` | service/backend/etcd_backend.go:151-172 | and it shows the address announced, once a refresh took effect |
| `Lease.TurnsApart` | service/backend/etcd_backend.go:139-149 | the loop turns no sooner than 30 seconds after a turn that succeeded or had nothing to announce, and a second after one that failed |
| `Lease.LeaseIsKept` | service/backend/etcd_backend.go:139-172 | from a successful refresh on, while the device stays announced, its key is alive up to every further step if the failures in a row and the oversleeping fit into half the time to live; a failed Set may have taken effect or not |
| `Lease.TwentyNineFailuresAreSurvived` | service/backend/etcd_backend.go:34-36 | with exact wake-ups 29 failures in a row do no harm |
| `Lease.SurvivesIff` | service/backend/etcd_backend.go:139-149 | the bound is sharp: after n failures the key is alive at the next refresh if and only if TTL/2 + n seconds is less than the TTL |
| `Lease.NothingRecreated` | service/backend/etcd_backend.go:120-172 | after UnAnnounce without a later Announce no step touches a key |
| `Lease.NothingSet` | service/backend/etcd_backend.go:103-137 | after UnAnnounce, or an Announce without a device or address, no step sets a key |
| `Lease.UnannouncedIsGone` | service/backend/etcd_backend.go:120-137 | so every key is gone within one TTL, even if Delete failed, and the device's key at once if the Delete took effect |
| `Lease.EtcdBackend.PublishDevice` | service/backend/etcd_backend.go:103-118 | Announce sets the fields and starts the loop once |
| `Lease.EtcdBackend.WithdrawDevice` | service/backend/etcd_backend.go:120-137 | UnAnnounce clears the fields and deletes the device's key if the call takes effect |
| `Lease.EtcdBackend.UpdateAnnounce` | service/backend/etcd_backend.go:151-172 | only while something is announced the key is set with its TTL, if the call takes effect; the error return is exactly an error of Set, which may have taken effect all the same |
| `Lease.EtcdBackend.LoopTurn` | service/backend/etcd_backend.go:139-149 | a refresh is followed by half a TTL of sleep, a failed one by a second |
| `KubernetesBackend.CacheFollowsWatch` | service/backend/k8s_backend.go:80-110 | after any history `lastState` renders the last change Watch signalled, and the cache holds that change unless it was empty |
| `KubernetesBackend.WatchIsExact` | service/backend/k8s_backend.go:80-97 | Watch signals a poll's answer if and only if it holds other registrations than the last signalled one, under the conditions of exact change detection |
| `KubernetesBackend.GetIsCurrentIff` | service/backend/k8s_backend.go:99-110 | when Watch sees no difference to the present devices, Get renders like them if and only if it did not fill the cache while `lastState` was empty |
| `KubernetesBackend.StuckCache` | service/backend/k8s_backend.go:99-110 | the failing family: devices found by an early Get that vanish before Watch sees them are returned for ever |
| `KubernetesBackend.GetIsGenuine` | service/backend/k8s_backend.go:80-110 | after any history, what Get returns as success is the answer of a listing that succeeded, then or before |
| `KubernetesBackend.K8sBackend.Watch` | service/backend/k8s_backend.go:80-97 | polls until the first answer that signals, whatever came before, and caches it |
| `KubernetesBackend.K8sBackend.Load` | service/backend/k8s_backend.go:99-110 | returns the cache, or else lists and caches; it fails exactly if nothing is cached and the listing fails, and then changes nothing |
| `Watchpoints.AddKeepsCache` | deps/github.com/zillode/notify/watchpoint.go:44-56 | Add keeps the nil entry the union of the event sets, and its diff is the true change of the total |
| `Watchpoints.DelKeepsCache` | deps/github.com/zillode/notify/watchpoint.go:58-79 | so does Del, which also empties a watchpoint nobody uses |
| `Watchpoints.DelMinSound` | deps/github.com/zillode/notify/tree_nonrecursive.go:114-140 | watchDelMin keeps the node right, removes just that channel, reports the true change of the total, leaves the tree's own channel at least what the parent demands, and empties the node if the channel was its only user and nothing is demanded from above |
| `Watchpoints.DelMinKeepsCovered` | deps/github.com/zillode/notify/tree_nonrecursive.go:114-140 | what another user of the node asked for through the tree's own channel stays asked for |
| `Watchpoints.DelMinNeeds` | deps/github.com/zillode/notify/tree_nonrecursive.go:114-140 | and nothing else stays: the tree's own channel is left exactly if something of it is in use, and the total is what the users left ask for, what the parent demands, and creations if the tree's own channel stays |
| `Watchpoints.OfferIsExact` | deps/github.com/zillode/notify/watchpoint_other.go:21-23 | the cached-union test never suppresses a match: a user event goes to exactly the user channels whose set includes it, never to the internal one |
| `Watchpoints.Recalculate` | deps/github.com/zillode/notify/watchpoint.go:66-71 | the loop of Del computes the union in any map order |
| `Watchpoints.DispatchEvent` | deps/github.com/zillode/notify/watchpoint.go:81-95 | each matching channel is offered the event once, in any map order |
| `WatchpointMaps.WatchpointMap.AddEvents` | deps/github.com/zillode/notify/watchpoint.go:44-56 | Add in place: the new map and the diff |
| `WatchpointMaps.WatchpointMap.DelEvents` | deps/github.com/zillode/notify/watchpoint.go:58-79 | Del in place: the new map and the diff |
| `WatchpointMaps.WatchpointMap.DelMinEvents` | deps/github.com/zillode/notify/tree_nonrecursive.go:114-140 | watchDelMin in place: the new map and the corrected diff |
| `WatchpointMaps.WatchpointMap.AddAndDel` | deps/github.com/zillode/notify/tree_nonrecursive.go:171-188 | a refused OS call: adding and deleting the new events leaves the node right and its total and the other channels as they were, while the channel keeps, besides its old set, those of the events that were in the total already |
| `WatchpointMaps.WatchpointMap.DelAll` | deps/github.com/zillode/notify/tree_nonrecursive.go:273-284 | watchDelMin with all events: the node stays right and loses just that channel, the diff is the true change of its total, the demand of the parent and what other users asked for is heeded, and nothing is left if the channel was its only user and nothing is demanded |
| `TreeNames.IndexSep` | deps/github.com/zillode/notify/util.go:134-141 | the first separator, or -1 if there is none |
| `TreeNames.JoinEvents` | deps/github.com/zillode/notify/util.go:101-110 | the union of the events, all of them by default |
| `ChildNames.KeyIsNameIff` | deps/github.com/zillode/notify/node.go:78-86 | the key under which AddDir stores a listed directory is its name if and only if it is not listed in "/"; there the first byte of the name is cut off |
| `ChildNames.NoNameLeadsBelow` | deps/github.com/zillode/notify/node.go:52-108 | no absolute name leads Add, Get or WalkPath to a node that AddDir stored below "/", whatever its key |
| `ChildNames.SlashHearsOnlyItsOwn` | deps/github.com/zillode/notify/tree_nonrecursive.go:35-66 | so a watch of "/", recursive or not, receives exactly the events directly in "/" |
| `ChildNames.BelowSlashHearsItsKey` | deps/github.com/zillode/notify/tree_nonrecursive.go:35-66 | and a node below "/" receives an event if and only if it happens directly in "/" to the entry named like the key of the node |
| `ChildNames.StoredInSlashIsDeaf` | deps/github.com/zillode/notify/tree_nonrecursive.go:35-66 | so the node of a directory listed in "/" hears neither what happens in that directory nor what happens to it |
| `TriePaths.NameInjective` | deps/github.com/zillode/notify/node.go:29-40 | different nodes have different names, so the OS masks of two nodes never clash |
| `TriePaths.NodeChanges` | deps/github.com/zillode/notify/tree_nonrecursive.go:171-188 | changing one node and telling the OS its new total keeps all masks equal to the totals |
| `TriePaths.OutOfStep` | deps/github.com/zillode/notify/tree_nonrecursive.go:191-209 | changing a total without a word to the OS puts the masks out of step |
| `TriePaths.UndoKeeps` | deps/github.com/zillode/notify/tree_nonrecursive.go:183-186 | after a refused call the channel holds exactly its old set and those of the new events that were in the total |
| `Traversal.FrontierDone` | deps/github.com/zillode/notify/node.go:64-90 | the explicit-stack walks visit exactly the nodes reached without passing an ignored one |
| `Walking.TouchedAreWatched` | deps/github.com/zillode/notify/tree_nonrecursive.go:191-209 | after a recursive walk the OS watches every visited directory for the events asked for and for creations |
| `Walking.IgnoredRootDrifts` | deps/github.com/zillode/notify/tree_nonrecursive.go:191-197 | watchAdd leaves the total of a node as it was if and only if everything asked for was in it already, and never on a node without watchpoints |
| `Walking.RootTouched` | deps/github.com/zillode/notify/tree_nonrecursive.go:211-239 | a finished walk touched its root and raised its total, unless the root is ignored: then it touched nothing and always finishes |
| `Walking.RecursiveGains` | deps/github.com/zillode/notify/tree_nonrecursive.go:211-239 | a recursive watch adds exactly its events to the user's channel on its root, nothing to any user elsewhere, and to the tree's own channel on the root and the nodes visited only |
| `Walking.ProgressCut` | deps/github.com/zillode/notify/node.go:64-90 | a walk that breaks off at a node it does not get past has touched reachable nodes only |
| `Coverage.NodesWalk` | deps/github.com/zillode/notify/node.go:141-164 | where the tree's own channel already asks for something, the walk over existing nodes reaches every listed directory below that is not ignored, provided no node stands for a symbolic link |
| `Coverage.RecursiveKeepsDeep` | deps/github.com/zillode/notify/tree_nonrecursive.go:211-239 | a recursive watch of a root that is not ignored keeps the invariant that what the tree's own channel asks for on a directory it asks for on every listed directory below that is not ignored, provided no node stands for a symbolic link |
| `Coverage.StillReal` | deps/github.com/zillode/notify/node.go:52-90 | watching a name that leads through no symbolic link adds no node that stands for one, since AddDir adds listed directories only |
| `Coverage.TreesAreReal` | deps/github.com/zillode/notify/node.go:78-86 | the conditions on listings hold of every finite directory tree with proper names |
| `Coverage.NestedIsReal` | deps/github.com/zillode/notify/node.go:78-86 | in particular of one that is four directories deep |
| `Coverage.DeepStop` | deps/github.com/zillode/notify/tree_nonrecursive.go:273-291 | so does stopping a channel everywhere |
| `Stopping.InStepIff` | deps/github.com/zillode/notify/tree_nonrecursive.go:273-291 | after stopping a channel everywhere the OS is in step if and only if it refused no change of a total |
| `Coverage.DeepIsWatched` | deps/github.com/zillode/notify/tree_nonrecursive.go:191-209 | in such a tree no recursive watch is deaf: what is asked for on a directory the OS watches on every directory reached below it |
| `NotifyTree.Tree.constructor` | deps/github.com/zillode/notify/tree_nonrecursive.go:19-32 | a tree of one node, nothing watched |
| `NotifyTree.Tree.TellGrown` | deps/github.com/zillode/notify/tree_nonrecursive.go:191-209 | Watch, Rewatch or nothing: the OS mask of the name becomes the new total; it fails if and only if the total changed and the OS refuses, and then the masks are untouched; the "eset is empty" panic is unreachable |
| `NotifyTree.Tree.Register` | deps/github.com/zillode/notify/tree_nonrecursive.go:191-209 | the node gains the events either way; the masks stay in step if and only if the OS takes the new total or need not be asked |
| `NotifyTree.Tree.TellStopped` | deps/github.com/zillode/notify/tree_nonrecursive.go:273-284 | Unwatch, Rewatch or nothing: the OS mask becomes the new total, absent if that is 0, unless the OS refuses, and then it stays; the error is dropped |
| `NotifyTree.Tree.Add` | deps/github.com/zillode/notify/node.go:52-62 | finds or creates the node of an absolute name; only nodes on the way are created, they hold no watchpoint, and none is created if the node is there |
| `NotifyTree.Tree.Find` | deps/github.com/zillode/notify/node.go:92-108 | Get finds the node of an absolute name if and only if it is in the tree |
| `NotifyTree.Tree.AddDir` | deps/github.com/zillode/notify/node.go:64-90 | finishes if and only if every directory reached without passing an ignored one is readable and not refused by the OS; then it watched exactly those; the nodes created are listed directories, no other node changes, and the OS stays in step unless it refused |
| `NotifyTree.Tree.Walk` | deps/github.com/zillode/notify/node.go:141-164 | the same over the nodes that exist and have a name |
| `NotifyTree.Tree.WatchNode` | deps/github.com/zillode/notify/tree_nonrecursive.go:171-188 | a plain watch adds the events to its node only; it fails if and only if the OS call that it needs fails, and then the OS masks are untouched and the channel keeps exactly its old set and those of the events that were in the total; the masks stay in step either way |
| `NotifyTree.Tree.WatchAdd` | deps/github.com/zillode/notify/tree_nonrecursive.go:105-112 | registers both channels without a word to the OS: the masks stay in step if and only if the total had all these events |
| `NotifyTree.Tree.AddAgain` | deps/github.com/zillode/notify/tree_nonrecursive.go:217-220 | the second Add of that branch changes nothing |
| `NotifyTree.Tree.WatchRec` | deps/github.com/zillode/notify/tree_nonrecursive.go:211-239 | which nodes a recursive watch visits in each of its three cases, when it finishes, that the OS then watches them all for what was asked, and what the root holds; the masks are in step afterwards if and only if the OS refused nothing and the root is not ignored or its total had everything asked for |
| `NotifyTree.Tree.Watch` | deps/github.com/zillode/notify/tree_nonrecursive.go:148-169 | a plain Watch adds just its events to its node, leaves all others alone, fails exactly if the OS refuses, and always keeps the masks in step; a recursive one finishes exactly if the walk gets past all it visits, has all of them watched, and keeps the masks in step if and only if nothing was refused and the root is not ignored or had everything asked for; nobody loses an event, no user gains more than was asked for, a root that is watched recursively already is walked without reading directories, and recursive watches keep reaching all the way down as long as no node stands for a symbolic link, which watching names without symbolic links never brings about |
| `NotifyTree.Tree.StopNode` | deps/github.com/zillode/notify/tree_nonrecursive.go:273-284 | the channel is gone from this node, the other users' event sets and all other nodes are as before, the parent's demand is heeded, and the node is empty if the channel was its only user and nothing is demanded from above |
| `NotifyTree.Tree.StopWalk` | deps/github.com/zillode/notify/tree_nonrecursive.go:243-270 | the walk visits every node, with the demand of its parent as the parent was left; all lost the channel, whatever the OS said |
| `NotifyTree.Tree.Stop` | deps/github.com/zillode/notify/tree_nonrecursive.go:273-291 | removes the channel from every node, leaves what other users registered and what they asked for through the tree's own channel, and nothing that is not needed any more (`Needed` at every node), keeps every recursive watch reaching all the way down, and leaves no watchpoint once no user is left; the OS masks are in step afterwards if and only if the OS refused no change of a total |
| `NotifyTree.Tree.StopAll` | deps/github.com/zillode/notify/tree_nonrecursive.go:273-291 | stopping channels one after the other, when the OS refuses nothing, leaves the other users as they were, and no OS watch once all users are stopped |
| `NotifyTree.Tree.DispatchAbove` | deps/github.com/zillode/notify/node.go:166-201 | WalkPath offers the event to the nodes strictly above the directory and finds the directory if and only if it is in the tree |
| `NotifyTree.Tree.Dispatch` | deps/github.com/zillode/notify/tree_nonrecursive.go:35-77 | an event is offered exactly once to each channel that asked for it recursively on a directory strictly above, or plainly on the directory or the leaf if the directory is known, and to nobody else |
| `Dispatching.ReceiversExact` | deps/github.com/zillode/notify/tree_nonrecursive.go:35-77 | what the nodes offer is exactly what was registered |
| `Dispatching.MissingBelow` | deps/github.com/zillode/notify/node.go:166-201 | if a node on the way is missing, nothing further down is in the tree |

## Left out

- HTTP, etcd, Kubernetes and Docker calls, process control, signals and flags: each call is an outcome that a parameter carries.
- `os.Stat`, ignore patterns and directory listings: arbitrary functions. That `currentPathStatus` looks a relative path up in the process's working directory is therefore not part of the model.
- Clock readings: a flush reads the clock once for the reminder and the expiry of Syncthing's entries, once for every tracked path and once after the request; all readings are parameters, those for paths no earlier than the first.
- Paths given to `aggregateChanges`: the statements in `Scores` and `ScanList` are about clean relative paths that the prefix trimming leaves alone, which is every clean relative path under an absolute folder; the code and its specification in `Aggregation` cover all strings.
- NotifyTree.Tree: the nodes are entries of one map from places to watchpoints instead of structs with child maps, and a watchpoint is taken out, changed in place and put back; sharing of one map between several node values is not captured. The mutex is left out, since every operation holds it throughout.
- NotifyTree.Tree.Watch: a recursive watch of "/" is left out, since there `ChildNames.KeyIsNameIff` fails and the nodes AddDir creates no longer lie where their names say; a plain watch of "/" is covered. After a refused recursive watch, one of an ignored root, or a stop that the OS refused, the masks may be out of step, and the operations say nothing about what follows.
- Coverage: the directories listed, and which of them are ignored, are taken to stay the same from one operation to the next; new directories are found by `internal`, which is not part of the model.
- NotifyTree.Tree.StopAll: the OS is taken to refuse nothing between the stops.
- Watchpoints: an event set is the set of its bit numbers from 0 to 31 instead of a 32-bit word; the bit numbers are those of the Linux build.
- NotifyTree.Tree.Dispatch: the events handed to the internal channel for new directories, and with them `internal`, which compares masks as numbers; a channel that is full drops the event it is offered.
- `node.Del`, `Close`, the recursive tree and the other platforms' watchers; symlink resolution in `cleanpath`.
- Registrations: `Sort`, `Len`, `Less` and `Swap` of a device list, which only other callers use. `net.JoinHostPort` is that of Go 1.7.3, the version in the Makefile.
- Service.Reconciler.UpdateSyncthing: the contents of the configuration, including the rejection of an ID that is no device ID, which counts as a failing SetConfig that was not reached; waiting for the configuration to be in sync; the watcher start.
- KubernetesBackend.K8sBackend.Watch: answers come from a finite sequence, at the end of which the program would go on polling.
- The 25 attempts of `updateAnnounce` in the Kubernetes backend, `readDevicesTree`, and the etcd backend's own Watch with its error counter.
- Lease: a device announced under another ID leaves the old key to expire; `LeaseIsKept` speaks of the device that stays announced.
- `watchFolder`, `relativePath` and `expandTilde`, which turn notifications into clean paths below the folder.
