# FlowSight core, modelled and proved

FlowSight's daemon keeps its history in an embedded store, runs module jobs on a small pool of workers,
keeps the operator's configuration in one JSON file, tails logs, and sells seats through a license server.
This project models the parts of it that are hard to get right and proves what they are for:

* **The DNS view** (`DnsRollup.dfy`, `DnsWindows.dfy`). `rollup_dns` is a group-by that is maintained incrementally with a
  watermark and a dirty mark. In every admissible run it equals the group-by of all the rows ever added;
  in any run a retained past group is right after a rollup exactly when no row of it had been pruned when
  it was last rebuilt, or it was never rebuilt and is empty.
* **Flow accounting** (`MapTotal.dfy`, `FlowLedger.dfy`, `FlowConservation.dfy`, `FlowTelescope.dfy`).
  Cumulative counters become increments: the three rollups balance, each row is a group-by of credits, one
  flow's credits telescope, batches can be split anywhere, and the int64 split of a growth is exact exactly
  when one product does not overflow.
* **The scheduler** (`Scheduler.dfy`). Workers interleave at every lock boundary, the clock is read before
  the lock is taken and the scan runs job by job while other jobs finish. Claims are still atomic, a job is
  held by at most one worker, and a due job is overtaken at most once by each other job.
* **The module loader** (`Loader.dfy`). The load order is a permutation, independent of registration and map
  order, and puts dependencies first if and only if the graph is acyclic.
* **The configuration file** (`Disk.dfy`, `ConfigFile.dfy`). A directory with unsynced data and unsynced
  entries; a crash after any step of a save leads to the old or the new configuration, unless a
  garbage file hid a good previous copy or an earlier rename was never synced; a lost main file is
  recovered from the previous copy in every run.
* **The tailer** (`Tailer.dfy`). Any polling schedule delivers what one pass over the file would, and over
  rotations and truncations what one pass over the part read of each generation would.
* **Schedules** (`Schedule.dfy`), **keys** (`Base32.dfy`), **login sessions** (`Sessions.dfy`), **seats**
  (`Seats.dfy`), **hosts** (`Hosts.dfy`) and **countries** (`Countries.dfy`).

Code that updates state is a class whose methods are proved equal to specification functions (or, for
sessions and schedules, to a relation); the theorems are lemmas about those functions over all inputs, runs
or interleavings. Clocks, random bytes, the answers of a job's function or a module's `Setup`, and the step
at which an I/O call fails are arguments. JSON is a pair of functions with `dec(enc(d)) == Some(d)`.
`AddDNS`, `Rollup`, `Prune`, `AddFlows`, `UpsertHosts`, `login`, `claim` and `release` are atomic steps. For
the DNS view that is an assumption about callers: the marks are read and written outside the transactions
(internal/core/store.go:710-717, 1108-1149), so a batch added between the read of `rollup.dirty` and its
reset could be missed.

Where the code does not do what its documentation says, the code is modelled and the exact condition is
proved: a late DNS row and a late first rollup (`LateRowLosesBucket`, `FirstRollupExactIff`, with
`RollupExactOnWindow` and `RollupExactOutside`), a 4 GiB burst (`FourGiBBurstGoesNegative`, with
`SplitIsExactIff` and `InboundNonNegativeIff`), a pruned open flow (`PruneCreditsAgainIff`), `RunNow` on an
overdue or held job (`RunNowKeepsItsTurnIff`, `RunNowLostWhileHeld`), a save over a garbage file (`CrashSafeIff`), a directory
sync that failed unnoticed (`AcknowledgedSurvivesIff`, `UnsyncedSave`), a tailer that
starts inside a line or meets a line longer than its limit (`StartsOnLineIff`, `ProgressIff`,
`LongLineStopsForever`), a position saved with inode 0 (`RestoreResumesIff`), day fragments accepted by
validation (`AcceptedIsDayIff`, `EverActiveIff`), the entropy of a key (`KeyHas80Bits`), a released
installation that comes back (`ClaimWithinSeatsIff`) and the count a claim reports (`ReportedIsInUseIff`).

`dafny verify dfyconfig.toml` checks everything.

## Model

| member | source | states |
|---|---|---|
| DnsRollup.Store.AddDNS | internal/core/store.go:697-750 | the batch is appended with empty strings as NULL and an empty action as "pass"; the dirty mark moves back to the oldest positive timestamp when that is over ten minutes old and earlier than the mark |
| DnsRollup.Store.Rollup | internal/core/store.go:1106-1150 | the whole new state: the window from the watermark or dirty mark is replaced by its group-by, or nothing changes on an empty window or a key conflict |
| DnsRollup.Store.Prune | internal/core/store.go:1153-1195 | raw rows by timestamp, view rows by bucket, non-positive day counts mean the defaults |
| DnsWindows.PruneKeepsExactly | internal/core/store.go:1155-1177 | exactly the raw rows of the last d days stay, in order, and exactly the view rows whose bucket is in the last r days; 7 and 400 stand in for values that are not positive |
| DnsWindows.MarkIsEarliestLate | internal/core/store.go:700-718 | a batch moves the dirty mark to its earliest record that is over ten minutes past and before the mark, and does not move it without one |
| DnsWindows.RollupWindow | internal/core/store.go:1106-1149 | in any timely run a rollup rebuilds exactly the buckets from ten minutes before the last one (a day before the first), or the dirty mark, up to its own, from the rows that are there |
| DnsRollup.NewRowsAboveStart | internal/core/store.go:701-718 | the mark does its job: no row a batch adds falls below the start of the next rollup |
| DnsRollup.RollupEffect | internal/core/store.go:1119-1149 | in every reachable state a rollup cannot hit a primary-key conflict, rebuilds exactly its window and leaves every other group alone |
| DnsRollup.AdmissibleRunsKeepInv | internal/core/store.go:697-750 | the inductive invariant of all admissible runs: agreement with the group-by of all rows below exactly the start of the next rollup |
| DnsRollup.ViewIsGroupByOfAllRows | internal/core/store.go:1103-1150 | after any admissible run ending in a rollup, every retained bucket before the current one equals the group-by of every row ever added |
| DnsRollup.ViewCountsRecords | internal/core/store.go:1127-1132 | the same in a reader's terms: a row for exactly the clients, domains and actions seen in those five minutes, with the number of records given and the greatest list name |
| DnsRollup.RollupExactOnWindow | internal/core/store.go:1116-1139 | in any run, a rebuilt group is right if and only if none of its rows was pruned |
| DnsRollup.RollupExactOutside | internal/core/store.go:1119-1125 | in any run, a group outside the window is right after the rollup if and only if it was right before |
| DnsRollup.RightIffBuiltWhole | internal/core/store.go:1101-1150 | in any timely run ending in a rollup, however late rows came and whatever was pruned, a retained past group is right if and only if no row of it had been pruned when its bucket was last rebuilt, or it was never rebuilt and has no row |
| DnsRollup.LateRowLosesBucket | internal/core/store.go:1116-1139 | a concrete run in which a row older than raw retention makes a rollup lose a group that was right |
| DnsRollup.FirstRollupExactIff | internal/core/store.go:1110-1139 | after the first rollup of any run, a past group is right if and only if none of its rows was pruned and it is empty or not older than the start of the window |
| DnsRollup.FirstRollupReachesOneDay | internal/core/store.go:1110-1113 | a concrete family: a first rollup more than a day after a row was added never shows it |
| DnsWindows.FirstRollupShowsLastDay | internal/core/store.go:1110-1132 | a first rollup shows every row of the last day that was not pruned, counted with its group |
| DnsRollup.MaxListIsMax | internal/core/store.go:1129-1130 | MAX over the list names is one of them and none is greater |
| FlowLedger.Store.AddFlows | internal/core/store.go:511-594 | rows and rollups after a batch: update the newest row of the key or insert, credit the difference, proxy records credit no bytes |
| FlowLedger.Store.AccumulateRollups | internal/core/store.go:622-678 | each delta is added to the three tables, idle deltas to none, deltas without a domain to two |
| FlowLedger.Store.Prune | internal/core/store.go:1155-1176 | flows started more than the given days ago go, and rollup rows of older buckets by one shared cutoff; 7 and 400 days by default |
| FlowLedger.BatchSplit | internal/core/store.go:511-594 | at one instant a batch and the same flows in two batches give the same rows and rollups, even when a key recurs across the split |
| FlowConservation.Conservation | internal/core/store.go:622-678 | in every run, for every bucket and source, application and destination rollups hold the same bytes and flows, all the live credits; the domain rollup holds those with a domain |
| FlowConservation.RollupsHoldAllCredits | internal/core/store.go:504-510 | in a bucket no prune has passed the rollups hold every byte and flow ever credited to it |
| FlowConservation.RowsAreGroupBy | internal/core/store.go:657-675 | in every run each row of each rollup is exactly the sum of the live credits of its key, "Unknown" and "observed" standing for empty names |
| FlowConservation.CategoryIsLastKnown | internal/core/store.go:627-671 | in every run a rollup has a row exactly when a live delta with bytes or a new flow left a trace in it, and its category is the last one such a delta knew |
| FlowTelescope.SplitIsExact | internal/core/store.go:605-616 | when the product fits in an int64 the parts are between zero and the growth, add up to it, and the inbound part is the exact proportion rounded down |
| FlowTelescope.SplitIsExactIff | internal/core/store.go:614 | the inbound part is the exact proportion if and only if growth times inbound fits in an int64 |
| FlowTelescope.PartsSumToGrowth | internal/core/store.go:610-615 | the parts add up to the growth for all representable counters, even when the product overflows |
| FlowTelescope.ResetCreditsAll | internal/core/store.go:605-613 | a counter that went down is credited whole in both directions, one that stood still not at all |
| FlowTelescope.OutboundNeverNegative | internal/core/store.go:610-615 | for all representable counters the outbound part is never negative, even when the product overflows |
| FlowTelescope.InboundNonNegativeIff | internal/core/store.go:605-616 | the inbound part takes nothing back if and only if the counters did not grow or the wrapped product is above minus the total |
| FlowTelescope.HarmlessOverflow | internal/core/store.go:614 | a concrete growth whose product overflows and takes nothing back |
| FlowTelescope.FourGiBBurstGoesNegative | internal/core/store.go:614 | a concrete growth of 4 GiB, half inbound, is split into -2 GiB and 6 GiB |
| FlowTelescope.OneRowPerKey | internal/core/store.go:565-592 | in every run of AddFlows and Prune at most one row per non-empty key |
| FlowTelescope.RowSaysItsObservations | internal/core/store.go:523-537 | in every run of AddFlows and Prune a key has a row exactly when it was observed since retention dropped its row, and the row says what those observations say: first start and endpoints, last counters and verdict, last known application, category and domain |
| FlowTelescope.CreditsTelescope | internal/core/store.go:597-616 | in every run of AddFlows and Prune the bytes ever credited for a key are its current total plus the totals just before each counter reset and each prune of its row, however directions shift and other flows interleave |
| FlowTelescope.CreditedWhenObserved | internal/core/store.go:543-548 | bytes go to the five minutes of the observation, or of the end of a flow that ended over ten minutes earlier |
| FlowTelescope.DeltaSays | internal/core/store.go:538-571 | every delta of every run, from the observations alone: labels of its flow, five minutes of its moment, new exactly when the key is empty or unseen since it was dropped, no bytes for a proxy record, whole counters for a new flow, otherwise split against the last counters seen |
| FlowTelescope.ProxyCreditsNothing | internal/core/store.go:566-571 | in every run the deltas of proxy records carry no bytes in either direction |
| FlowTelescope.RollupsHoldWhatWasEarned | internal/core/store.go:504-594 | in every run the three rollups of a bucket and source hold what the observations themselves earned it, proxy records adding flows but no bytes |
| FlowTelescope.PruneCreditsAgainIff | internal/core/store.go:1165-1166 | after a prune the next observation is credited as a new flow, with its whole counter, if and only if the row started before the cutoff; otherwise the credit is what it would have been |
| FlowTelescope.DomainNeverHoldsMore | internal/core/store.go:668-672 | in every run the domain rollup of a bucket and source holds no more bytes, no more bytes out and no more flows than the application rollup; and no more bytes in when every observation is harmless |
| FlowTelescope.OverflowTakesInboundBack | internal/core/store.go:614 | every run can go on with a harmful observation so that 2 GiB inbound leave the application rollup and nothing leaves the domain rollup |
| FlowTelescope.RunGives | internal/core/store.go:605-616 | in every run no delta ever credited takes bytes back in total or outbound; none does inbound if and only if every observation is harmless (the condition of `InboundNonNegativeIff`) when it is made |
| Scheduler.ScanPicksEarliest | internal/core/module.go:309-317 | the scan finds the earliest due idle job, the first registered among equals, or that there is none |
| Scheduler.Pool.Add | internal/core/module.go:259-263 | appends the job, which may be listed already |
| Scheduler.Pool.Claim | internal/core/module.go:305-324 | marks exactly the job the scan picks as running, wherever it is listed, and changes nothing otherwise |
| Scheduler.Pool.Run | internal/core/module.go:346-393 | a denied run is locked and due one interval later without counting; any other run counts, counts its failure and is due one interval after it finished |
| Scheduler.IntervalIsKept | internal/core/module.go:305-390 | in every interleaving, between the step with which a worker lets go of a job and its next claim, without RunNow, at least one interval passes by the claim's clock reading |
| Scheduler.LockedIsLastAnswer | internal/core/module.go:347-362 | in every trace a job is shown locked exactly when the last answer of its gate was no |
| Scheduler.Pool.RunNow | internal/core/module.go:283-295 | moves exactly the first job of that name to now, or reports that there is none |
| Scheduler.MutualExclusion | internal/core/module.go:305-393 | over all interleavings a job is running exactly when one worker holds it, never two, and failures never exceed runs |
| Scheduler.ClaimIsAtomic | internal/core/module.go:305-324 | although jobs finish in the middle of a scan, every claim takes what one instantaneous scan with its clock reading would take |
| Scheduler.BoundedOvertaking | internal/core/module.go:305-393 | once a job is idle and due every other job is claimed at most once before it, with clock readings that may be stale |
| Scheduler.WaitIsBounded | internal/core/module.go:305-393 | in every run, with a job set fixed from then on, a due job waits for fewer claims than there are jobs |
| Scheduler.CountersCountFinishes | internal/core/module.go:347-385 | in every run Runs and Failures count exactly the finishes, so denied runs leave both unchanged |
| Scheduler.RunNowLostWhileHeld | internal/core/module.go:283-393 | RunNow on a held job is lost: in every interleaving up to the step with which the holder lets go, finished or denied, the system is the same afterwards with and without it |
| Scheduler.ClaimOrder | internal/core/module.go:309-317 | claim after claim takes the due jobs by due time, then by registration, and no job that is not due |
| Scheduler.RunNowKeepsItsTurnIff | internal/core/module.go:282-295 | after RunNow an idle job is still claimed before every due job it was claimed before if and only if no idle job is due between its own due time and the present (for a stale clock reading: if no job due then was behind it) |
| Scheduler.RunNowIsNextIff | internal/core/module.go:282-295 | RunNow makes an idle job the next one claimed if and only if no idle job was due before this moment |
| Scheduler.RunNowLosesTurn | internal/core/module.go:289 | a concrete pool in which RunNow on the next job lets another job be picked first |
| Loader.Core.Visit | internal/core/core.go:160-172 | the recursive walk equals its specification and ends on every graph, cyclic ones included |
| Loader.Core.ListNames | internal/core/core.go:173-177 | the registered names in order, whatever the map's iteration order |
| Loader.Core.LoadModules | internal/core/core.go:143-199 | the load order of the sorted names; Infos, Modules and Errors split by enabled and failing modules |
| Loader.Core.SetUpAll | internal/core/core.go:181-198 | one setup per enabled module in load order, each seeing the earlier modules that did not fail |
| Loader.LoadsEveryModuleOnce | internal/core/core.go:157-180 | the order holds every registered module exactly once, even with cycles |
| Loader.DependenciesFirstIffAcyclic | internal/core/core.go:160-172 | every registered dependency comes before its dependents if and only if the graph of registered modules has no cycle |
| Loader.DependencyFirstUnlessMutual | internal/core/core.go:160-172 | on every graph, cyclic or not, a registered dependency is loaded before its dependent unless it depends on it in turn |
| Loader.SortedListingUnique | internal/core/core.go:173-177 | a set of names has one sorted listing |
| Loader.RegistrationOrderIrrelevant | internal/core/core.go:148-180 | registering the same modules in another order gives the same load order |
| Loader.VisitsInTurn | internal/core/core.go:160-180 | a list, the sorted names or one module's After, is visited from the front: for each k the order begins with what was there and exactly what the first k open |
| Loader.LoadsInNameOrder | internal/core/core.go:173-180 | the load order begins, for each k, with exactly the modules that the first k sorted names reach |
| Loader.LastRegistrationWins | internal/core/core.go:148-155 | of several registrations of a name the last one counts |
| Loader.DependenciesAreUp | internal/core/module.go:70-71 | without a cycle, at a module's setup every enabled dependency that did not fail is loaded |
| Disk.WriteKeepsSolid | internal/core/config.go:238-266 | stopping a durable write after any step leaves, in every directory version a crash may bring back, an allowed pair of contents of the two files, synced |
| Disk.WriteTakesEffect | internal/core/config.go:241-266 | readers see the new contents from the rename on, the old ones before, and the other file unchanged |
| Disk.CrashKeepsSolid | internal/core/config.go:238-240 | a crash leaves exactly what one of the surviving directory versions holds |
| Disk.VersionsStay | internal/core/config.go:257-263 | until the directory is synced, every version there was can still come back |
| ConfigFile.Config.WriteDurably | internal/core/config.go:241-266 | the steps of the write up to where it fails; success from the rename on |
| ConfigFile.Config.Reload | internal/core/config.go:95-143 | what is loaded, recovered, rewritten and reported, in every error case, failed reads included |
| ConfigFile.GoodFileIsLoaded | internal/core/config.go:95-143 | a readable main file that parses to u leaves u in memory, and u without "modules" as the daemon's settings unless they do not fit, without a note and with the disk unchanged |
| ConfigFile.NothingIsLoadedAsEmpty | internal/core/config.go:98-141 | an empty or absent file without a good copy is loaded as an empty configuration |
| ConfigFile.GarbageIsAnError | internal/core/config.go:103-127 | bytes that do not parse without a good copy, and a failed read, are errors that keep memory |
| ConfigFile.GoodCopyIsLoaded | internal/core/config.go:110-125 | a good copy beside an empty, absent or unreadable main file is loaded with a note, and the file is rewritten from it |
| ConfigFile.Config.SaveLocked | internal/core/config.go:223-236 | previous copy first, errors of it ignored, then the file itself |
| ConfigFile.Config.DeclareModule | internal/core/config.go:152-160 | defaults over "enabled" |
| ConfigFile.Config.Module | internal/core/config.go:163-180 | the operator's settings over the defaults, enabled when neither says |
| ConfigFile.MergedSays | internal/core/config.go:163-180 | key by key: the operator's setting, else the declared default, else "enabled" is true and other keys are absent |
| ConfigFile.Config.SetModule | internal/core/config.go:190-207 | the values over the module's settings, saved |
| ConfigFile.CrashSafeIff | internal/core/config.go:223-240 | a load after any crash point of a save leaves in memory what a load before the save would have, or the new configuration, if and only if every directory version still pending means one of the two and the main file is not garbage while a good previous copy is there |
| ConfigFile.SavesAreCrashSafe | internal/core/config.go:223-266 | the same in every run of saves, crashes, losses and loads; a save is always crash-safe when nothing is pending, as after a crash or a save whose directory sync succeeded |
| ConfigFile.AcknowledgedSurvivesIff | internal/core/config.go:257-265 | after a save that reports success a load leaves the saved document in memory whatever a crash does, if and only if the directory was synced, or the disk certainly meant it already |
| ConfigFile.UnsyncedSave | internal/core/config.go:260-265 | after a save whose ignored directory sync failed, a crash may undo it, and the next save is crash-safe if and only if what was there before was one of the two saved |
| ConfigFile.GarbageDestroysPrev | internal/core/config.go:231-234 | the crash point at which a save over a garbage file leaves nothing to load |
| ConfigFile.SaveThenLoad | internal/core/config.go:223-236 | after a save that reports success every load leaves the saved document in memory, and its daemon's settings if they fit; what was there is the previous copy, whatever is pending |
| ConfigFile.LostFileIsRecovered | internal/core/config.go:87-143 | in every run of saves, crashes, losses and loads, losing or truncating the main file makes a load put a non-empty configuration saved before into memory, with a note; a second load puts the same there from the rewritten file, without a note |
| ConfigFile.SetModuleRoundTrip | internal/core/config.go:163-207 | what SetModule stores is what Module answers, here and after a load; other keys, modules and the daemon's settings are unchanged |
| Tailer.Tail.Lines | internal/core/tail.go:40-94 | one poll: seeding, rotation, the limit, the lines delivered and the new offset |
| Tailer.Tail.ReadChunk | internal/core/tail.go:77-93 | the read loop delivers the non-empty trimmed complete lines of the chunk and moves past exactly them |
| Tailer.TrimSays | internal/core/tail.go:86 | trimming takes off exactly the carriage returns and newlines at the end |
| Tailer.LinesSay | internal/core/tail.go:77-93 | the lines of bytes: none without a newline; otherwise what precedes the first one, trimmed, unless empty, and then those of the rest |
| Tailer.Tail.Restore | internal/core/tail.go:35-37 | sets the position, seeded only for a non-zero inode |
| Tailer.FirstPollFollows | internal/core/tail.go:54-62 | the first poll seeds at the end of the file, or reads from its start |
| Tailer.DeliversEachLineOnce | internal/core/tail.go:11-16 | whatever the polling schedule over an append-only file, the lines delivered are those of one pass between the starting offset and the current one, and no line is cut at the current one |
| Tailer.DeliversEachGeneration | internal/core/tail.go:11-16 | with any appends, rotations, truncations and polls, the lines delivered are whole lines of each generation in turn: from its start when its arrival was noticed, from the old offset when it was not |
| Tailer.TruncationNoticedIff | internal/core/tail.go:66-69 | after a truncation a poll delivers the first lines of the file if and only if it is still shorter than the offset; when it has regrown, those after the old offset, and it moves on from there |
| Tailer.ProgressIff | internal/core/tail.go:73-93 | a poll advances if and only if a newline lies within the limit |
| Tailer.LongLineStopsForever | internal/core/tail.go:73-76 | a line longer than MaxBytes stops the tailer for good |
| Tailer.PollsReachLastNewline | internal/core/tail.go:40-94 | polls of a file that does not change ever reach its last newline if and only if every line up to there fits in MaxBytes or there is no limit; then as many polls as bytes left suffice |
| Tailer.StartsOnLineIff | internal/core/tail.go:54-62 | after its first poll a new tailer delivers the file's own lines, on every schedule while the file grows, if and only if the file then ended at a line boundary (with MaxBytes 1, which delivers nothing: if the unfinished line was blank) |
| Tailer.RestoreResumesIff | internal/core/tail.go:33-62 | a new tailer restored to a saved position delivers what the old one would have on every continuation if and only if the inode was not 0 or nothing was polled yet (or MaxBytes is 1, or both read from the start); otherwise one that starts at the end skips lines even if the file only grows |
| Schedule.TimesCompareAsMinutes | internal/core/policy.go:156-385 | comparing two HH:MM strings is comparing minutes of the day |
| Schedule.TimeIff | internal/core/policy.go:156 | times are exactly 00:00 to 23:59 in two digits each, and their minutes those of the day |
| Schedule.NameIff | internal/core/policy.go:152-155 | names are 1 to 64 letters, digits, spaces, dots, underscores and dashes, a letter or digit first |
| Schedule.AcceptsIff | internal/core/policy.go:238-258 | what is accepted: a name, at least one window, times, and days whose first three letters in lower case occur in the list of days |
| Schedule.DaysAreAccepted | internal/core/policy.go:250-255 | every day is accepted however it is written after its first three letters |
| Schedule.DaysSay | internal/core/policy.go:368-369 | the days of the week, Sunday first |
| Schedule.NoScheduleIsAlways | internal/core/policy.go:360-367 | no schedule means always, one that does not exist never |
| Schedule.WindowMeansInterval | internal/core/policy.go:371-385 | a window is active exactly in [start, start + length) from each allowed day, around the end of the week |
| Schedule.ActiveMeansIntervals | internal/core/policy.go:359-388 | a validated schedule is in effect exactly when the minute of the week lies in such an interval of one of its windows |
| Schedule.PolicyDoc.ValidateSchedules | internal/core/policy.go:238-261 | accepts exactly the documents whose names, windows, times and days are acceptable; normalises all days, or on failure touches nothing but days |
| Schedule.PolicyDoc.ValidateWindows | internal/core/policy.go:245-258 | the same for the windows of one schedule, updated in place |
| Schedule.ValidationIsIdempotent | internal/core/policy.go:208-209 | a validated document validates again unchanged |
| Schedule.AcceptedIsDayIff | internal/core/policy.go:251-253 | an accepted day is a weekday if and only if it contains no space |
| Schedule.EverActiveIff | internal/core/policy.go:390-400 | a window is ever in effect if and only if it lists no day or a real one |
| Schedule.FragmentIsAccepted | internal/core/policy.go:252 | "n t" is accepted as a day and is none |
| Base32.EncodeBytes | internal/licensing/doc.go:224-241 | the loop over a wrapping 64-bit accumulator spells the five-bit groups of the input's bits, most significant first, zero-filled |
| Base32.GroupsAreBits | internal/licensing/doc.go:222-241 | the groups are the bits in order with fewer than five zeros after them, one symbol per started group |
| Base32.AlphabetSays | internal/licensing/doc.go:222 | digits, then the letters in order without I, L, O and U |
| Base32.EncodesTheNumber | internal/licensing/doc.go:222-241 | the symbols' positions read in base 32 are the bytes read in base 256, shifted left by the bits left over |
| Base32.DecodeEncode | internal/licensing/doc.go:222-241 | an explicit decoder inverts the encoding of every input |
| Base32.EncodeInjective | internal/licensing/doc.go:222-241 | different inputs have different encodings |
| Base32.KeyHas80Bits | internal/licensing/doc.go:199-211 | two keys are equal exactly when the tier letter and the first ten random bytes are: 80 bits, not the 100 of the comment |
| Base32.KeySays | internal/licensing/doc.go:199-211 | FS, the tier's letter and four blocks of four symbols between dashes |
| Base32.IdentifierSays | internal/licensing/doc.go:192-197 | the prefix, an underscore and the symbols of ten bytes in lower case |
| Base32.IdentifiersAreDistinct | internal/licensing/doc.go:192-197 | identifiers are equal only for equal random bytes |
| Sessions.Api.Login | internal/core/api.go:746-779 | expired sessions go, the table is evicted to 999 soonest-to-expire first, the new session is added; a refused token changes nothing |
| Sessions.Api.SoonestToExpire | internal/core/api.go:768-774 | the scan finds a session that expires no later than any other |
| Sessions.EvictionIsOldestFirst | internal/core/api.go:754-779 | at every login of every run at most 1000 sessions, the new one good for twelve hours, the others unexpired and unchanged; an unexpired one is dropped only from a full table and only if every session kept was opened and expires no earlier |
| Sessions.SurvivesWhileFewerAreNewer | internal/core/api.go:767-777 | a live session survives every login that finds fewer than 999 others opened no earlier |
| Seats.Store.Claim | cmd/flowsight-licensed/main.go:226-260 | refused exactly for a new installation when the seats are taken by others; the row written and the count reported |
| Seats.Store.CountOthers | cmd/flowsight-licensed/main.go:234-245 | the loop counts the active seats of other installations, in any order |
| Seats.Store.Release | cmd/flowsight-licensed/main.go:262-268 | marks the row released, an unknown one changes nothing |
| Seats.RenewedWrites | cmd/flowsight-licensed/main.go:250-252 | a claim writes the caller's row and keeps the time it was first seen |
| Seats.Store.Activate | cmd/flowsight-licensed/main.go:581-615 | which requests are refused and why; refused ones change nothing |
| Seats.RenewalChangesNothing | cmd/flowsight-licensed/main.go:250-257 | a renewal leaves the set of active seats as it is, any other accepted claim adds one |
| Seats.ClaimWithinSeatsIff | cmd/flowsight-licensed/main.go:237-248 | an accepted claim stays within the seats if and only if it is not a released installation returning to a full key |
| Seats.ReportedIsInUseIff | cmd/flowsight-licensed/main.go:226-259 | the count reported is the number of seats in use after the call if and only if the claim is a first one |
| Seats.NeverMoreThanSeats | cmd/flowsight-licensed/main.go:226-268 | in every run in which returning installations find a free seat no key has more active activations than seats |
| Seats.ReturningInstallationExceedsSeats | cmd/flowsight-licensed/main.go:237-248 | a concrete run with one seat and two active installations |
| Hosts.Inventory.UpsertHosts | internal/core/store.go:937-994 | the table is the fold of every update ever given, updates without an address skipped |
| Hosts.Inventory.Prune | internal/core/store.go:1181 | retention drops the hosts not seen since the cutoff, 400 days by default |
| Hosts.RowsSayTheirHistory | internal/core/store.go:905-989 | in every history of updates and prunes an address has a row exactly when it was told of since retention dropped it, and the row is what those updates say: identity last given since the last move to other hardware, counters summed, last seen the latest, first seen the first |
| Hosts.SeenTimes | internal/core/store.go:969-989 | first seen is the time the first update speaks of, last seen the greatest one |
| Hosts.MakerIsRegistered | internal/core/store.go:964-968 | a maker on a row was given as such, and with a private hardware address only if it says so |
| Hosts.PrivateIff | internal/core/store.go:913-935 | a hardware address is private when its second hexadecimal digit is 2, 3, 6, 7, a, b, e or f |
| Hosts.NothingInherited | internal/core/store.go:906-911 | every identity value on a row was given at or after the address last moved to another device |
| Hosts.NoMoveAfterLast | internal/core/store.go:911 | the last move is the last time the known hardware address changed beyond letter case |
| Countries.Filler.Far | internal/core/store.go:1237-1253 | a memoised lookup answers what a fresh one would; local and empty addresses are not looked up |
| Countries.Filler.FillCountries | internal/core/store.go:1228-1270 | in place, every flow is stamped as if each address were looked up afresh |
| Countries.FillKeepsAndSettles | internal/core/store.go:1223-1270 | a known country and an anycast mark stay, a second pass changes nothing, and stamps come from a remote end of the flow |
| Countries.StampIsFarEnds | internal/core/store.go:1253-1269 | from the lookups alone: the destination is heard before the source when remote and anything is said of it; an empty country becomes the answer heard, and its anycast answer is added |
| Common.LowerSays | internal/core/policy.go:251 | lower case moves the 26 capitals and nothing else |
| Common.ContainsIff | internal/core/store.go:966 | a string contains another exactly when it is something before it and something after it |

## Left out

- The window between reading and resetting `rollup.dirty` and the transactions around it: `AddDNS` and `Rollup` are atomic steps here.
- `dns_names`, alerts, events, metrics, findings, changes and certificates: inserts and deletes of one statement.
- Flow columns for packets, duration, policy, TLS, visibility, country and attributes: they are assigned or coalesced like the columns that are modelled.
- FlowLedger.Store.AddFlows: sums in the rollup tables are unbounded integers, because SQLite turns an overflowing sum into a floating-point number; the arithmetic of `flowDelta` is int64.
- FlowTelescope.CreditsTelescope: for keys without proxy records, because those are stored as the last counters but credit nothing.
- FlowTelescope.DomainNeverHoldsMore: the bound on bytes in is stated for runs of harmless observations, because it can fail after a harmful one (`OverflowTakesInboundBack`); total, outbound and flow bounds hold in every run.
- Errors of the database and transactions that roll back for other reasons than a key conflict.
- Panics in a job, log lines, the stop channel and the half-second wait of an idle worker: they do not touch the job protocol.
- Scheduler.Pool.RunNow: reads the clock inside the lock in one step, because no other claim can run meanwhile.
- What a module's `Setup` does and whether it can fail differently on another order; cancelled contexts and `Stop`.
- Typed decoding of the daemon's settings is a predicate on the top-level document; `SetCore` and comment stripping are not modelled.
- Disk.WriteKeepsSolid: hard links and other writers of the same directory are not modelled, because the daemon is the only writer.
- Tailer.DeliversEachLineOnce: for a file that is only appended to, because lines of a rotated or truncated file that were not read yet are gone; `DeliversEachGeneration` covers the rest.
- I/O errors in the middle of a poll and negative restored offsets.
- Time zones and daylight saving: a time is a weekday and a minute.
- Policies, groups, exclusions, regular expressions other than those of names and times, and member resolution.
- Ed25519 signing, base64, license documents, tiers and HTTP handling; the order of host names in the message of a refused claim.
- Unicode: strings are compared, trimmed and lower-cased by ASCII characters.
- Token matching, scopes and cookies around `login`; session ids are assumed never to repeat in the theorems over runs.
