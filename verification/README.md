# Leyen, verified

A Dafny model of the parts of Leyen, a launcher for Windows games, that compute or coordinate something, with proofs of
what they promise. `dafny verify dfyconfig.toml` checks all of it.

- **Seccomp filter** (`Seccomp`, `Bpf`, `Bytes`). The two-pass assembler turns two tables of system-call numbers into a
  classic BPF program. A BPF interpreter runs on the emitted bytes, and the bytes are proved to return the verdict of the
  tables, for arbitrary tables and every call. The byte order of the host is a parameter.
- **Sessions** (`Sessions`, `SessionRuns`, `SessionLives`, `FinishEnded`, `Library`, `LibraryVersions`). Synchronize passes,
  launches, client saves, crashes and restarts as a step system: each session is finalized at most once, none leaves the
  registry before, and the playtime of a game is its first value plus that of its finalized sessions. Saves against a
  version overwrite an unread one only after a restart, or when the client adopted a newer version without reading again.
- **Dependencies** (`DepPlanner`, `DepState`, `DepEngine`, `DepRuns`, `DepRecords`, `Snapshots`, `PrefixTree`). The
  planner over an arbitrary catalog graph, installs and removals over whole runs and what the records say after them, the
  snapshot difference, rollback, recovery and the removal of tracked files with the folders left empty.
- **Streams** (`OutputLines`, `LogRing`). The line splitter does not depend on how reads cut the bytes; the log ring and
  its offsets refine the full log; no dropped line goes uncounted.
- **Icons** (`Ico`, `IcoBytes`, `PngScan`, `PngFiles`). Building and scanning an ICO file undo each other, byte by byte; the
  PNG scan finds the disjoint files tiled by chunks (section 5.3 of the W3C PNG Specification), reads files as they are
  written, and picks the first decodable one in order.
- **Sandbox mounts** (`Mounts`). Sorting the mounts makes the deepest one win, the later one on a tie, and decides what a
  path may write.
- **Admission** (`Admission`, `AdmissionExact`, `AdmissionLooks`, `Daemon`). Games and dependency jobs keep out of each
  other's way: exactly from which states, and over which steps.
- **Ids** (`LeyenIds`). A fresh id is always found, and distinct ids keep the processes of two sessions apart.

Loops and objects that change are methods and classes proved against a function of their inputs or their old state; what
the program promises is proved about those functions. File access, clocks, processes and random draws are parameters.

## Where the code and what it says differ

- A comment on finalize claims says that they are kept a day because no pass lasts that long. A pass shorter than a day is
  not enough: a pass and the time a finished session may take to leave the registry must together fit in the day, and a
  restart must judge dead what a pass found dead (`SessionRuns.AtMostOnceExactly`).
- What gates a session's removal is that its finalize was attempted. A playtime write that fails is not tried again and
  nothing is credited (`SessionRuns.FailedWriteIsNotRetried`, `SessionLives.CreditedExactly`).
- A daemon about to exit waits for finalizes that are counted, and a pass counts itself only after it won its claim: the
  daemon can exit in between (`FinishEnded.ExitLosesExactly`).
- A client's save is taken only when it names the version the daemon counts, so that no save is overwritten unread. Two
  things break that. The count starts at 1 again with the daemon (`LibraryVersions.ARestartLosesASave`). And a client
  holds one version for everything it edits and adopts a newer one whenever it hears of it, while a library read before is
  still being edited: its save is then taken over the one it has not read, within one life of the daemon
  (`LibraryVersions.AToldClientLosesASave`). `LibraryVersions.OverwritesExactly` and
  `LibraryVersions.NeverOverwritesExactly` are the exact conditions.
- Of two games with one id the first is credited and a save keeps the record of the second, so additions are lost exactly
  then (`Library.AdditionKeptExactly`).
- A failed install rolls back files but leaves the DLL overrides it set, recorded nowhere
  (`DepRuns.AFailedInstallLeaks`, `DepRuns.InstallBalancedExactly`). A removal stopped after its registry step leaves a
  component recorded without its overrides (`DepRuns.AStoppedRemovalLoses`, `DepRuns.UninstallBalancedExactly`).
- Two conditions on the catalog are nowhere checked. A component that lists a provided id can lose it when the provider
  goes (`DepRuns.AListedProvidedIdBreaksIt`), and installing a provider empties the recorded dependencies of a component it
  provides (`DepRuns.AnInstallForgets`). The catalog compiled in meets both: its only provided ids are fonts that nothing
  lists and that depend on nothing, so with it neither can happen.
- The record of a pending install is deleted after the component is recorded. A daemon that stops in between has the next
  one remove the component's files while its record stays (`Snapshots.RecoverRecorded`).
- A dependency job can start beside a running game: after three errors in a row, when the session monitor publishes "nothing
  runs" (`AdmissionLooks.ClearLetsAJobIn`); after a launch whose own publish failed
  (`AdmissionLooks.AFailedPublishLetsAJobIn`); around a pass that stalls between the sequence gate and the store, whether it
  has nothing to tell (`AdmissionLooks.ALateStoreLetsAJobIn`) or the game itself
  (`AdmissionLooks.AStalledPublishLetsAJobIn`); when the looks of an admission, at the mirror and then at the launch count,
  straddle a launch's end (`AdmissionLooks.TwoLooksLetAJobIn`); and after a startup whose reconciliation failed. When each of
  these is harmless is stated exactly (`AdmissionExact.ClearExactly` and the rows after it,
  `AdmissionLooks.MirrorLookExactly`, `AdmissionExact.StartExactly`).
- Clearing the log restarts its offsets without telling clients, so an older offset skips new lines
  (`LogRing.StaleOffsetAfterClear`).

## Model

| member | source | states |
|---|---|---|
| Seccomp.FilterBytes | crates/leyen-core/src/sandbox/seccomp.rs:133-222 | assembling succeeds exactly when the tables hold at most 249 numbers in all columns; then the kernel takes the image, and interpreting its bytes refuses, for every architecture and number, exactly the calls whose number is in the column of that architecture: EPERM by one table, ENOSYS by the other, every x32 call with EPERM, and leaves all else |
| Seccomp.FilterCorrect | crates/leyen-core/src/sandbox/seccomp.rs:133-210 | compiler correctness: running the encoded program equals the table lookup for all tables in reach and all call data |
| Seccomp.VerdictByColumns | crates/leyen-core/src/sandbox/seccomp.rs:212-222 | the verdict is read off the i386, the x86-64 or the generic column by architecture |
| Seccomp.FitExactly | crates/leyen-core/src/sandbox/seccomp.rs:184-205 | every jump is non-negative and in reach of its field if and only if the tables hold at most 249 numbers |
| Seccomp.Distances | crates/leyen-core/src/sandbox/seccomp.rs:174-190 | no distance underflows; a conditional one is at most the total plus six, and the x32 test of the first block has exactly that |
| Seccomp.BuildProgram | crates/leyen-core/src/sandbox/seccomp.rs:137-172 | the first pass emits the dispatch, the three blocks and the returns, and the labels stand where the jumps will look for them |
| Seccomp.EncodeProgram | crates/leyen-core/src/sandbox/seccomp.rs:184-209 | the second pass writes every instruction with its resolved distance, and fails exactly when a conditional one exceeds a byte |
| Seccomp.EmitStep | crates/leyen-core/src/sandbox/seccomp.rs:185-203 | an emitted instruction takes the branch its symbolic form names |
| Seccomp.Scan | crates/leyen-core/src/sandbox/seccomp.rs:154-163 | a run of table jumps leaves for its label exactly when the table lists the number, and else falls through |
| Seccomp.HeadCorrect | crates/leyen-core/src/sandbox/seccomp.rs:148-153 | the x86-64 block refuses numbers with the x32 bit, the others go on with the loaded number |
| Seccomp.BlockCorrect | crates/leyen-core/src/sandbox/seccomp.rs:146-165 | the block of a known ABI returns that ABI's verdict: EPERM table, then ENOSYS table, else allow |
| Seccomp.DispatchCorrect | crates/leyen-core/src/sandbox/seccomp.rs:137-143 | the dispatch reaches the block of its ABI and allows every unknown one |
| Seccomp.FilterLoadable | crates/leyen-core/src/sandbox/seccomp.rs:133-210 | every jump is forward and inside the program, loads are aligned and inside the call data, and the last instruction returns |
| RefusedTables.ShippedTablesFit | crates/leyen-core/src/sandbox/seccomp.rs:65-131 | the shipped tables are within reach |
| Bpf.DecodeEncoded | crates/leyen-core/src/sandbox/seccomp.rs:204-207 | decoding the image at any position gives the instruction encoded there, in either byte order |
| Bpf.ImageLayout | crates/leyen-core/src/sandbox/seccomp.rs:204-209 | where each field of an instruction is in the image, byte by byte, in either byte order |
| Bpf.RunEncoded | crates/leyen-core/src/sandbox/seccomp.rs:184-209 | interpreting the bytes is interpreting the instructions |
| Bpf.LoadableHalts | crates/leyen-core/src/sandbox/seccomp.rs:133-210 | an image the kernel takes always halts with a verdict |
| Sessions.FinalizeClaims.ClaimSessionFinalize | crates/leyen-core/src/launch.rs:572-588 | a claim is won exactly when none younger than a day exists; older ones are forgotten |
| Sessions.MarkFinishes | crates/leyen-core/src/launch.rs:589-597 | marking finishes its own session and no other, and frees no claim: nobody wins it again while it is kept |
| Sessions.DoneUntilPruned | crates/leyen-core/src/launch.rs:572-603 | through any calls, a finished session reads as done exactly until a claim is made more than a day after its own |
| Sessions.RunningRegistry.TryRegister | crates/leyen-core/src/launch.rs:663-689 | a launch is refused exactly when its game has a session that nobody has claimed for finalize |
| Sessions.RunningRegistry.ApplyUpdates | crates/leyen-core/src/launch.rs:465-500 | a scan's findings fill in the scope of a session that had none, mark its game seen, change nothing else, and the active set leaves the finished ones out |
| Sessions.FirstScopeStays | crates/leyen-core/src/launch.rs:465-500 | over any scans a session keeps the first scope found for it, and its game counts as seen once a scan saw it |
| Sessions.RunningRegistry.Drop | crates/leyen-core/src/launch.rs:528-538 | removal drops the session with the key and keeps the others in order |
| SessionRuns.WinnerIsFirst | crates/leyen-core/src/launch.rs:506-526 | whoever wins a claim finds the session neither finalized nor being written |
| SessionRuns.PruneSafe | crates/leyen-core/src/launch.rs:572-588 | under the timing assumption a claim is only forgotten once its session has left the registry and every snapshot |
| SessionRuns.StepInv | crates/leyen-core/src/launch.rs:403-545 | the invariant over registry, claims, passes and history is kept by each of the fourteen steps |
| SessionRuns.FinalizedAtMostOnce | crates/leyen-core/src/launch.rs:411-603 | over every interleaving of passes, launches, saves, crashes and restarts within the timing assumption each session is finalized at most once |
| SessionLives.LeavesOnlyFinalized | crates/leyen-core/src/launch.rs:506-545 | over any steps whatever, with no assumption on timing or restarts, a key (game and second) leaves the registry only once a finalize of it was attempted, unless a restart drops it |
| SessionLives.EachFinalizedExactly | crates/leyen-core/src/launch.rs:506-545 | launch by launch, over any steps whatever: every session leaves the registry only with a finalize of its own or dropped by a restart, exactly when no launch uses the key of an earlier one |
| SessionLives.AReusedKeyIsNotFinalized | crates/leyen-core/src/launch.rs:506-545 | steps in which a game is launched twice with one key, and the second session leaves without a finalize of its own |
| SessionRuns.AtMostOnceExactly | crates/leyen-core/src/launch.rs:560-588 | at-most-once holds of every run if and only if pass length plus removal lag is at most the day claims are kept and restarts judge dead what a pass found dead |
| SessionRuns.SlowPass | crates/leyen-core/src/launch.rs:572-588 | a run that finalizes twice when a pass holds its snapshot too long |
| SessionRuns.SlowRemoval | crates/leyen-core/src/launch.rs:528-544 | a run that finalizes twice when the removal lags beyond the day |
| SessionLives.CreditedExactly | crates/leyen-core/src/launch.rs:506-545 | over any steps whatever every launched key is registered, dropped by a restart or credited exactly when each one whose finalize was attempted is: only a failed write loses one |
| SessionRuns.FailedWriteIsNotRetried | crates/leyen-core/src/launch.rs:518-526 | for any library with the game in it once, a run in which its session's write fails and the session is gone with the library unchanged, where the write would have added its playtime |
| SessionRuns.UnsteadyRestart | crates/leyen-core/src/launch.rs:881-905 | a run that finalizes twice when a restart keeps a finalized session of unknown liveness |
| SessionLives.OneLiveSession | crates/leyen-core/src/launch.rs:663-689 | of two registered sessions of one game at least one is claimed for finalize, over every run whose removals lag at most a day and whose restarts judge dead what a pass found dead, however long passes take |
| SessionLives.OneLiveExactly | crates/leyen-core/src/launch.rs:663-689 | that holds of every run if and only if removals lag at most a day and restarts judge dead what a pass found dead |
| SessionLives.UnsteadyKeepsBoth | crates/leyen-core/src/launch.rs:881-905 | a run in which a restart keeps a finalized session beside its relaunched game, neither claimed |
| SessionLives.LateRemovalKeepsBoth | crates/leyen-core/src/launch.rs:528-588 | a run in which a finalized session stays over a day, and the claim of a third session leaves it and the relaunched one unclaimed |
| SessionRuns.PlaytimeOfSessions | crates/leyen-core/src/launch.rs:340-402 | over any steps whatever, a game that is in the library and in every save, once, has its first playtime plus that of its finalizes whose write succeeded, whatever other ids are doubled |
| SessionRuns.RestartInv | crates/leyen-core/src/launch.rs:881-905 | startup reconciliation keeps the invariant when what a pass found finished is judged dead |
| Library.MergeAuthoritativeFields | crates/leyen-core/src/config.rs:220-263 | a save's loop lays the daemon's records over the client's library |
| Library.RecordsOfMerge | crates/leyen-core/src/config.rs:220-263 | after a save every game the daemon knows keeps the daemon's record, any other the client's, doubled ids included |
| Library.MergeKeepsShape | crates/leyen-core/src/config.rs:220-263 | a save keeps the client's groups, titles, order and every other field |
| Library.RecordsOfUpdate | crates/leyen-model/src/library.rs:65-81 | changing a game changes its entry in the map of records exactly when no other game has the id, and no other entry |
| Library.FindAndUpdate | crates/leyen-model/src/library.rs:65-81 | the search through items and groups changes the first game with the id and reports its new record |
| Library.PlaytimeConserved | crates/leyen-core/src/config.rs:203-328 | over any interleaving of saves, additions and launch records a game that is in the library and every save, once, has its first playtime plus all additions |
| Library.RecordConserved | crates/leyen-core/src/config.rs:203-328 | the whole record of such a game is its first one with the additions, starts and results in their order, whatever stale saves come between |
| Library.AdditionKeptExactly | crates/leyen-core/src/config.rs:220-292 | for any library with the id, what a save keeps has the addition exactly when one game only has the id, and is unchanged otherwise |
| Library.DuplicateIdLosesPlaytime | crates/leyen-core/src/config.rs:220-263 | with the id doubled, an addition followed by a save of any library leaves what the save alone does |
| LibraryVersions.AcceptedExactly | crates/leyend/src/main.rs:276-328 | over any run, within one life of the daemon a save is taken exactly when no other was since its version was given out, and one that is taken overwrites one unread exactly when its library is older than that version |
| LibraryVersions.OverwritesExactly | crates/leyend/src/main.rs:276-328 | over any run of several clients, late signals, unanswered queries and restarts, a save overwrites one its client had not read exactly when one was taken since it read and the version it names was given out after the last one, or is of an earlier life and equal to the number the saves since the restart have come to |
| LibraryVersions.NeverOverwritesExactly | crates/leyen-gtk/src/daemon.rs:417-460 | no run has a save that overwrites one its client had not read, exactly when the daemon does not restart and no client sends a library by a version newer than the one it was read at |
| LibraryVersions.AToldClientLosesASave | crates/leyen-gtk/src/daemon.rs:600-617 | a run in one life of the daemon in which a client adopts the version of a change signal while it edits and saves over the library it had not read |
| LibraryVersions.ARestartLosesASave | crates/leyen-gtk/src/daemon.rs:417-460 | a run in which a client saves after a restart over a save it had not read |
| Library.LibraryStore.Persist | crates/leyen-core/src/config.rs:91-161 | the locked write changes file and cache together or neither |
| Library.LibraryStore.AddGamePlaytime | crates/leyen-core/src/config.rs:278-292 | playtime is credited and the total returned exactly when the game is found and written |
| Library.LibraryStore.SaveLibraryMerged | crates/leyen-core/src/config.rs:203-219 | a save stores the client's library with the records on disk, or changes nothing |
| Library.LibraryStore.LoadLibrary | crates/leyen-core/src/config.rs:176-186 | clients see what is on disk |
| DepPlanner.BuildInstallPlan | crates/leyen-core/src/deps/engine.rs:1663-1679 | planning succeeds exactly when the graph reachable from the id is acyclic and complete; the plan has no duplicates, holds exactly the id and every uninstalled id it reaches, lists prerequisites first and ends with the id; a refusal names a reachable cycle or missing profile |
| DepPlanner.Planner.AppendInstallPlan | crates/leyen-core/src/deps/engine.rs:1681-1711 | one call adds exactly what its id wants and restores the set being visited, or explains its refusal along the call stack |
| DepPlanner.PlannableUnfolds | crates/leyen-core/src/deps/engine.rs:1681-1711 | an id can be planned exactly when it has a profile and each of its dependencies can be planned |
| DepState.TakesItsOwnOnly | crates/leyen-core/src/deps/engine.rs:1952-1969 | taking them out leaves every other component all it set, and of the removed one's exactly what another set too |
| DepEngine.Prefix.UpsertInstalledDep | crates/leyen-core/src/deps/state.rs:98-125 | each list of the entry has an element exactly when it had it or the change has it, the touched mark likewise, dependencies are replaced, and no other entry changes |
| DepRuns.InstallThenRemove | crates/leyen-core/src/deps/engine.rs:1350-1552 | installing a component and removing it again gives the records back exactly when no record listed it and every provided one that was there has changes of its own to remove and loses no dependencies to the install |
| DepRuns.InstallThenRemoveOverrides | crates/leyen-core/src/deps/engine.rs:1952-1982 | it gives the overrides back exactly when, as the prefix before the install and the recipe show, every new one will be the component's and no other's and every one of its that was there is another's too; if it will not be removable, exactly when none was new |
| DepEngine.Prefix.RunProfile | crates/leyen-core/src/deps/engine.rs:1139-1367 | one component's recipe records the change, then its provided ids; a failed one records nothing and leaves its overrides |
| DepRecords.ProfileGains | crates/leyen-core/src/deps/engine.rs:1871-1920 | after a recipe that went well each list of the record has what it had and what the recipe changed: of the overrides those set by name and those that were not there before |
| DepRecords.TrackedExactly | crates/leyen-core/src/deps/engine.rs:1139-1556 | over any run from an empty prefix a component's record names a file exactly when a recipe of it that went well created the file and it was installed ever since |
| DepEngine.Prefix.InstallDep | crates/leyen-core/src/deps/engine.rs:1060-1368 | installs the plan in order until a recipe fails; changes nothing when the plan is refused |
| DepEngine.Prefix.UninstallDep | crates/leyen-core/src/deps/engine.rs:1411-1552 | refused exactly when an installed component depends on it or is provided by it and only changed existing files; a completed removal takes exactly its record, those of provided entries that own and changed nothing, and the overrides that it alone set |
| DepRuns.RunKeepsClosed | crates/leyen-core/src/deps/engine.rs:1016-1556 | over any run of installs and removals, failing or stopped midway, every recorded dependency of an installed component is installed, when no provided id is listed as a dependency |
| DepRuns.UninstallKeepsClosed | crates/leyen-model/src/deps/state.rs:170-188 | a removal keeps that exactly when no remaining component lists a provided entry removed along |
| DepRuns.AListedProvidedIdBreaksIt | crates/leyen-core/src/deps/engine.rs:1524-1552 | a run over a catalog that lists a provided id ends with a dependency missing |
| DepRuns.InstallForgetsOfProvided | crates/leyen-core/src/deps/engine.rs:1350-1367 | another component's recorded dependencies survive an install exactly when it is not provided by it, or had none |
| DepRuns.AnInstallForgets | crates/leyen-core/src/deps/engine.rs:1350-1367 | an install after which a component it provides has lost its recorded dependency |
| DepRuns.RemovalTakesOnlyEmptyStubs | crates/leyen-core/src/deps/engine.rs:1524-1552 | besides the component only records of provided ids that own nothing go |
| DepRuns.RunBalanced | crates/leyen-core/src/deps/engine.rs:1871-1982 | over any run, from any prefix and whatever the records, registry and records differ only by what they did at the start, initial overrides, those that failed installs and removals left behind and those removals took from components still there |
| DepRuns.InstallBalancedExactly | crates/leyen-core/src/deps/engine.rs:1300-1327 | an install keeps the registry to initial and recorded overrides exactly when the failing recipe wrote none outside the registry at its turn and the initial ones |
| DepRuns.UninstallBalancedExactly | crates/leyen-core/src/deps/engine.rs:1472-1507 | a removal keeps registry and records together exactly when it takes no override a component still records and leaves none behind but initial ones, records of verbs without overrides of their own included |
| DepRuns.OwnRecordsBalance | crates/leyen-core/src/deps/engine.rs:1973-1982 | a removal that completes over records that name what they set takes none and leaves none |
| DepRuns.AFailedInstallLeaks | crates/leyen-core/src/deps/engine.rs:1300-1327 | a failed install that leaves an override recorded nowhere |
| DepRuns.AStoppedRemovalLoses | crates/leyen-core/src/deps/engine.rs:1472-1507 | a stopped removal that leaves a component recorded without its override |
| DepRuns.OverrideLeavesWithLastOwner | crates/leyen-core/src/deps/engine.rs:1952-1969 | an override leaves the registry only in a removal of a component that set it, when no other installed one did |
| Snapshots.DiffSnapshots | crates/leyen-core/src/deps/engine.rs:1871-1901 | created is exactly the new files that are not Proton's; touched exactly when an earlier file not Proton's is gone, or one changed its length, or its modification time while not Proton's |
| Snapshots.RollBack | crates/leyen-core/src/deps/engine.rs:1300-1327 | exactly the created files go with the folders left empty; no file is left that was neither there before nor Proton's; nothing earlier goes |
| Snapshots.RollBackInterrupted | crates/leyen-core/src/deps/engine.rs:256-287 | recovery leaves no file that was neither there before nor is Proton's now, and takes what the live rollback would exactly when no new file stopped being Proton's |
| Snapshots.RecoverRecorded | crates/leyen-core/src/deps/engine.rs:1329-1348 | recovery after a stop between record and cleanup takes every recorded file that is not Proton's |
| PrefixTree.Tree.RemoveCreatedFiles | crates/leyen-core/src/deps/engine.rs:2310-2343 | deletes exactly the listed existing files and the folders they leave empty, whatever the list's order, never the prefix and nothing by a path with "..", ".", "/" or an empty part; stops early exactly for such a path, one through a link or a file, or a folder that stays |
| PrefixTree.Tree.PruneEmptyParentDirs | crates/leyen-core/src/deps/engine.rs:2358-2374 | walking up from a removed file removes exactly the folders that go with all files removed so far |
| PrefixTree.EmptyIffGone | crates/leyen-core/src/deps/engine.rs:2358-2374 | a folder's own entries, once deeper ones were dealt with, decide whether everything below it was removed |
| PrefixTree.NothingEmptiedIsLeft | crates/leyen-core/src/deps/engine.rs:2310-2374 | no folder the removal emptied is left, and every folder it did not reach into stays |
| PrefixTree.DecidedSoFar | crates/leyen-core/src/deps/engine.rs:2310-2313 | because deepest paths go first, what stops a path is decided when its turn comes as it is for the whole list |
| OutputLines.ForEachOutputLine | crates/leyen-core/src/launch.rs:1788-1831 | one line is handed on for each newline and for the rest, whatever the chunks: its first 16384 bytes, or all, without one carriage return at their end, marked truncated when there were more; the buffer never holds more than 16384 bytes |
| OutputLines.TakeChunk | crates/leyen-core/src/launch.rs:1799-1815 | one turn takes a chunk up to its first newline and never more than the room left |
| OutputLines.SplitUnique | crates/leyen-core/src/launch.rs:1785-1821 | the split is the only one into newline-free lines that joins to the bytes |
| OutputLines.SplitJoins | crates/leyen-core/src/launch.rs:1785-1821 | joining the lines gives the bytes back |
| OutputLines.CutAnywhere | crates/leyen-core/src/launch.rs:1788-1821 | cutting a read in two anywhere, with an interruption between, changes no line |
| OutputLines.WrittenComesBack | crates/leyen-core/src/launch.rs:1785-1831 | whatever texts a program writes as lines, ended by a newline or by a return and a newline, are handed on unchanged and in order |
| LogRing.LogBuffer.Append | crates/leyen-core/src/logging.rs:210-221 | a line is appended to the log the ring stands for, the oldest leaving at 1000 |
| LogRing.LogBuffer.GetLogsSince | crates/leyen-core/src/logging.rs:301-314 | a pull returns exactly the retained lines at or after the offset, and the offset after the last line |
| LogRing.LogBuffer.Clear | crates/leyen-core/src/logging.rs:321-333 | the log is empty and offsets start at zero |
| LogRing.BatchExact | crates/leyen-core/src/logging.rs:316-319 | skipping in the ring is slicing the full log from the offset or the oldest retained line |
| LogRing.PullsConcatenate | crates/leyen-core/src/logging.rs:301-333 | over any run of lines, pulls and clears a client that pulled since the last clear has the log since then with no gap or repeat exactly when no pull came over 1000 lines late and the first one began at the start |
| LogRing.StaleOffsetAfterClear | crates/leyen-core/src/logging.rs:301-333 | a pull from an old offset misses nothing the ring has exactly when there is nothing or the offset is no later than the oldest line |
| LogRing.DroppedLinesAreCounted | crates/leyen-core/src/logging.rs:84-102 | over any interleaving of senders and writer every offered line is sent in order or counted by a marker or the counter |
| LogRing.AllSentExactly | crates/leyen-core/src/logging.rs:84-102 | the lines sent on are all that were offered, in order, exactly when none of them found the queue full |
| LogRing.RoomReports | crates/leyen-core/src/logging.rs:89-101 | a sender whose line went in reports all earlier drops in one marker when there is room |
| Ico.BuildIcoFromGroup | crates/leyen-gtk/src/icons.rs:530-586 | refused exactly for a malformed group, a missing icon or a field that does not fit; otherwise every directory entry selects exactly its image and images tile the tail in order |
| IcoBytes.GroupExactly | crates/leyen-gtk/src/icons.rs:530-541 | a group is taken exactly when its header bytes are a zero, a one and a count of 1 to 256 entries that fit |
| IcoBytes.RebuiltCopies | crates/leyen-gtk/src/icons.rs:543-586 | byte by byte: the header is the group's, each directory entry is the first eight bytes of the group's, then little-endian the length of the icon with its id and where it stands |
| Ico.WriteIco | crates/leyen-gtk/src/icons.rs:564-585 | writing succeeds exactly when every size and offset fits 32 bits and yields such a file |
| Ico.LaidOut | crates/leyen-gtk/src/icons.rs:564-585 | header, directory and images laid end to end form such a file |
| Ico.CheckEntries | crates/leyen-gtk/src/icons.rs:695-731 | a directory is believed exactly when every entry is non-empty and inside, and its end is the furthest byte reached |
| Ico.FindIcoBlob | crates/leyen-gtk/src/icons.rs:675-739 | returns the first believable file, or none when there is none |
| IcoBytes.BelievedExactly | crates/leyen-gtk/src/icons.rs:675-731 | what the scan believes, byte by byte: the header bytes, one to 64 entries that fit, each with a non-empty image after the directory and inside |
| Ico.BuiltIsFound | crates/leyen-gtk/src/icons.rs:675-739 | a built file is believed at its start exactly with at most 64 entries and no empty image, and then ends at its last byte |
| Ico.FindUndoesBuild | crates/leyen-gtk/src/icons.rs:530-739 | scanning a built file returns all of it exactly with at most 64 entries and no empty image |
| PngScan.ParsePngEnd | crates/leyen-gtk/src/icons.rs:637-664 | the walk ends inside the bytes at the end chunk of a file tiled by chunks |
| PngFiles.WalkEnds | crates/leyen-gtk/src/icons.rs:637-664 | the walk over chunks written with big-endian lengths ends at their last byte, whatever is around them |
| PngFiles.DimensionsRead | crates/leyen-gtk/src/icons.rs:624-635 | the header of a written file is read as the width and height it was given |
| PngScan.EndExact | crates/leyen-gtk/src/icons.rs:637-664 | chunks tile from a place to an end exactly when the walk finds that end |
| PngScan.FindSignature | crates/leyen-gtk/src/icons.rs:666-673 | finds the first signature at or after a place |
| PngScan.ScanPngs | crates/leyen-gtk/src/icons.rs:601-616 | candidates are usable files in bounds, disjoint and in order, and every usable file starts inside one |
| PngFiles.WrittenIsFound | crates/leyen-gtk/src/icons.rs:601-616 | a written file among other bytes, with no signature before it, is the first candidate, whole, scored by the distance of its width and height from the size |
| PngScan.SortOrders | crates/leyen-gtk/src/icons.rs:616-618 | the stable sort by score orders by score and position and keeps the candidates |
| PngScan.FindBestPngIcon | crates/leyen-gtk/src/icons.rs:601-623 | the result is the first candidate that decodes, in order of score and position |
| PngFiles.WrittenIsDecoded | crates/leyen-gtk/src/icons.rs:601-635 | with no signature after it either, it is what is decoded |
| Mounts.OrderedMounts | crates/leyen-core/src/sandbox/mod.rs:493-532 | a folder asked for outside the prefix is mounted where it is, writable exactly when that was asked; beside these there are exactly the prefix, its read-only Leyen folder, the cache from there and the folders of the runtime and of Proton; all sorted by target |
| Mounts.SortSorts | crates/leyen-core/src/sandbox/mod.rs:529-529 | the sort orders by target and keeps every mount |
| Mounts.PrefixOrder | crates/leyen-core/src/sandbox/mod.rs:527-529 | of two folders above one path the order of paths is the depth |
| Mounts.InsertResolve | crates/leyen-core/src/sandbox/mod.rs:527-532 | a stable insertion changes what a path ends up in exactly when the new mount is at least as deep |
| Mounts.DeepestMountWins | crates/leyen-core/src/sandbox/mod.rs:527-532 | after the sort a path ends up in the deepest mount above it of those asked for, the later one on a tie, whichever optional sources exist |
| Mounts.PrefixIsNotShadowed | crates/leyen-core/src/sandbox/mod.rs:493-532 | no path in the prefix ends up in a share |
| Mounts.LastShareDecides | crates/leyen-core/src/sandbox/mod.rs:497-509 | a path that ends up in a share can be written exactly when the last one asked for of that folder is writable |
| Mounts.LeyenIsReadOnly | crates/leyen-core/src/sandbox/mod.rs:511-515 | a path that ends up in Leyen's folder in the prefix cannot be written, unless the runtime's writable folders or the home's cache are that one |
| Mounts.CacheIsThePrefixs | crates/leyen-core/src/sandbox/mod.rs:515-516 | the home's cache comes from Leyen's folder in the prefix, writable, unless the runtime or Proton is in that very folder |
| Mounts.RuntimeIsReadOnly | crates/leyen-core/src/sandbox/mod.rs:520-526 | the runtime's read-only folders and Proton cannot be written where they are mounted, whatever was asked for |
| Admission.JobsExcludeLaunches | crates/leyend/src/main.rs:193-201 | in every reachable state, at the finest steps, a dependency job excludes launches in flight and there are at most four jobs |
| Admission.NoGameBesideAJob | crates/leyend/src/main.rs:354-391 | over any run at the finest steps, errors included, no game that is not over and no program is beside a job, when the start is safe and each clear, failed publish, gate, store and late admission leads to a safe state |
| AdmissionExact.WholeStepsKeepApart | crates/leyend/src/main.rs:193-201 | so with one look, one-step publishes and launches that publish before they return, in every run whose start had the earlier daemon's games published |
| AdmissionExact.JobGetsIn | crates/leyend/src/main.rs:354-391 | from any other state, steps that look once, publish at once and publish before returning lead to a job beside a game that is on |
| AdmissionExact.SafeExactly | crates/leyend/src/main.rs:354-391 | a state is safe if and only if no such steps lead to a job beside a game or program |
| AdmissionExact.StartExactly | crates/leyen-core/src/launch.rs:881-922 | the start is harmless exactly when no earlier game is on or the games were published, which a failed reconciliation does not do |
| AdmissionExact.ClearExactly | crates/leyen-core/src/launch.rs:853-862 | publishing nothing after errors is harmless exactly when no game is on or a launch in flight has a publish to come that counts |
| AdmissionExact.AbandonExactly | crates/leyen-core/src/launch.rs:656-661 | a launch whose publish fails is harmless exactly when no game is on, another launch bars jobs, or the mirror is up or will go up with no empty pass to override it |
| AdmissionExact.GateExactly | crates/leyen-core/src/launch.rs:805-810 | a pass through the gate, not yet stored, is harmless exactly when no game is on, a launch bars jobs, the mirror is up, or a launch owes this or a later pass or has one to store |
| AdmissionExact.StoreExactly | crates/leyen-core/src/launch.rs:805-831 | storing late that nothing runs is harmless exactly when no game is on, another launch bars jobs, or a launch in flight will put the mirror up with no empty pass to override it |
| AdmissionExact.FitsExactly | crates/leyend/src/main.rs:354-391 | from a safe state a step other than an admission by an earlier look is harmless if and only if it meets its condition |
| AdmissionLooks.MirrorLookExactly | crates/leyend/src/main.rs:358-374 | after the look at the mirror admission holds through every path of any events, errors and half-done publishes included, for which that look stands, exactly when no game and no program is on and no launch in flight has yet to register |
| AdmissionLooks.RunsThatFit | crates/leyend/src/main.rs:354-391 | over any run at the finest steps, errors included, in which each clear, failed publish, gate, store and look at the mirror meets its condition on the state it is taken in, no game that is not over and no program is beside a job; a late admission is asked nothing |
| AdmissionLooks.ARunThatDoesNot | crates/leyend/src/main.rs:354-391 | the conditions are the weakest: a run whose last step misses its own goes on, without an error, to a job beside a game or a program |
| AdmissionLooks.NoLaunchNoGap | crates/leyend/src/main.rs:366-374 | from a safe state with no launch in flight at the look and no program on, it holds |
| AdmissionLooks.TheOtherOrderHolds | crates/leyend/src/main.rs:366-374 | with the table locked and none in flight, a mirror that is down at any later time rules every game out: the order of the looks is the cause |
| AdmissionLooks.ClearLetsAJobIn | crates/leyen-core/src/launch.rs:853-862 | a run in which the clear lets a job in beside a running game |
| AdmissionLooks.AFailedPublishLetsAJobIn | crates/leyen-core/src/launch.rs:656-661 | a run in which a launch whose publish failed lets a job in beside its game |
| AdmissionLooks.AStalledPublishLetsAJobIn | crates/leyen-core/src/launch.rs:805-810 | a run in which a pass that has read the game goes through the gate and stalls, the launch's own publish is dropped as older, and a job gets in |
| AdmissionLooks.ALateStoreLetsAJobIn | crates/leyen-core/src/launch.rs:805-831 | a run in which a publish of nothing that stalled behind the gate lets a job in beside a running game |
| AdmissionLooks.TwoLooksLetAJobIn | crates/leyend/src/main.rs:366-374 | a run in which the looks of an admission, around a launch's end, let a job in beside a running game |
| FinishEnded.ExitLosesExactly | crates/leyen-core/src/launch.rs:550-562 | when the daemon stops waiting, over any run of passes, every claimed session is recorded exactly when no pass stands between winning a claim and being counted |
| FinishEnded.AnExitLosesOne | crates/leyen-core/src/launch.rs:517-521 | the wait can end over a claim just won |
| Daemon.Manager.BeginLaunch | crates/leyend/src/main.rs:193-201 | a launch takes its guard exactly when the job table is empty |
| Daemon.Manager.BeginProgram | crates/leyend/src/main.rs:509-523 | running a program is refused for a job, then for a launch, in that order |
| Daemon.Manager.EndLaunch | crates/leyend/src/main.rs:67-71 | dropping a guard is the end of its launch |
| Daemon.Manager.AdmitJob | crates/leyend/src/main.rs:354-391 | a job is admitted exactly with no program, no game or launch and fewer than four jobs, refusals in that order |
| Daemon.Manager.FinishJob | crates/leyend/src/main.rs:641-653 | a job's entry goes however the job ended |
| Daemon.Manager.PublishSessionsSeq | crates/leyen-core/src/launch.rs:805-831 | a set older than the last published one changes nothing, a newer one sets the mirror |
| Daemon.Manager.PublishNothing | crates/leyen-core/src/launch.rs:853-862 | the mirror says nothing runs, whatever does |
| LeyenIds.GenerateUniqueLeyenId | crates/leyen-model/src/library.rs:237-272 | for any draws ends with an unused well-formed id; leaves the four-digit pool only when it is used up and then tries at most one number more than there are ids, below 32 bits |
| LeyenIds.PooledIdsDiffer | crates/leyen-model/src/library.rs:243-260 | padded ids are well-formed and differ for different numbers |
| LeyenIds.PooledIdReads | crates/leyen-model/src/library.rs:243-260 | a pooled id is "ly-" and the four decimal digits of its number |
| LeyenIds.WideIdsDiffer | crates/leyen-model/src/library.rs:262-271 | wide ids are well-formed and differ for different numbers |
| LeyenIds.GameIdsDiffer | crates/leyen-model/src/library.rs:276-296 | the map to game ids is injective on well-formed ids |
| LeyenIds.SessionsShareNoProcess | crates/leyen-core/src/launch.rs:1652-1664 | two sessions claim no process in common, whatever runs, exactly when they share neither game id nor scope |
| LeyenIds.TakesExactly | crates/leyen-core/src/launch.rs:1652-1664 | a session takes exactly the games' Windows programs that carry its id, or carry none and run in its scope |
| LeyenIds.DistinctGamesAreApart | crates/leyen-core/src/launch.rs:1652-1664 | sessions of games with distinct well-formed ids in distinct scopes share no game process |

## Left out

- GTK windows, the D-Bus proxy, menu entries, translations and downloads: no algorithm of their own.
- Processes, systemd, cgroups, `/proc`, file locks: answers of these are parameters; a lock makes a step atomic; a lock
  that cannot be taken changes nothing.
- TOML and JSON text, SHA-256, image decoding and PE parsing: abstract.
- Playtime is unbounded here, 64-bit in the program. Output lines are bytes; their lossy conversion to text is not modelled.
- Liveness is an oracle: a pass may judge any set of its snapshot finished. That a finished session is judged dead by a
  later restart, that the clock does not go back and that a launch's key (game and second) is fresh are assumptions of the
  runs.
- First-use loading of the library reads the disk outside the lock; here it is one step.
- Programs an earlier daemon left are in the table the admission looks at. When taking them over fails, they are on
  without being in it.
- Symbolic links in mount sources and the mounts `bwrap` makes outside the sorted list.
- The steps of a recipe: what an attempt writes is arbitrary, except that steps only add overrides. Uninstallers leave
  overrides alone, and a registry edit happens whole or not at all.
- The winetricks log and `verbs_to_forget`, which follow the same rule as overrides.
- Deletions that fail for want of permission; a path's depth is that of its components, where the program counts slashes;
  snapshots see the regular files outside the cache and bookkeeping folders, and "file" means these.
- Access control of the kernel beyond its checks on loading a filter.
- DepRuns.RunKeepsClosed: asks that no provided id be listed as a dependency, because the program does not check it; DepRuns.UninstallKeepsClosed has the exact condition per removal.
