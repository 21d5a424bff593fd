# Verification of the Media Preview Generator's hard cores

A Dafny 4.11 model of the parts of the repository where a mistake is silent: the Emby plugin's crash-safe marker
protocol, the weekly availability and capacity arithmetic, path mapping and the settings migrations that rewrite it, the
library scan filters and the Vulkan check cache. `dafny verify dfyconfig.toml` checks the whole project.

## What is modelled

**The Emby marker protocol.** `StoredMarkers`, `MarkerChapters` and `MarkerProtocol` hold the record, the row algebra
and one item's state machine: the store file, the chapter rows (each with the fact, invisible to the program, of who
wrote it) and the steps POST, DELETE, item update, rows lost in any number and rows others add. Every save of every
operation can succeed, throw, or be the last thing before Emby stops. `MarkerBridge` is the same code on mutable
objects, method by method, proved equal to those steps. `MarkerSafety` proves what every run keeps, `MarkerRecovery`
what an item update restores, and `MarkerSharedEndpoint` shows where the protocol fails: two intros that share exactly
one endpoint. The condition `Apart` rules that family out, and the two theorems there show it is exact.

The protocol theorems assume what the design assumes: a row save is atomic, nobody else's row has the type, start and
name of a row the store names, and a request's intro is apart from the stored and the replaced one.

**Weekly arithmetic.** Masks are unbounded integers with two's-complement `&`, `|`, `^`, `~` and shifts (`Bits`).
`WeeklyMask` folds windows into the 10080-minute week, `Peak` peels runs of ones off each mask and sweeps the changes,
`WorkerGroups` and `GroupValidation` admit a configuration, `GroupAcceptance` says of the stored JSON which and
`GroupMeaning` what comes out of it, `LegacySettings` and `LegacyGroups` build one from old settings, `NextOpening` walks
elapsed minutes across clock changes and `QuietHours` rewrites old windows. Each algorithm is a loop proved against a
statement about single minutes.

**Paths and migrations.** `Paths` and `PathLaws` hold the two resolvers and their laws, `PathMigration` the steps v7 to
v9, `ScheduleMigration` v14 over whole histories of boots, and `NodeMigration` v24 with its naming loop.

**Filters and cache.** `ScanFilters` is the two-pass selection; `VulkanCache` is the generation-guarded cache as readers
and clears interleave.

Where a property fails, the model keeps the code's behaviour and states the exact condition:

- `MarkerSharedEndpoint.CleanUpIffApart` and `HealKeepsIntroIffApart`: intros that share one endpoint lose a row.
- `PathMigration.DroppableIffCovered` and `FanOutDroppableIffOffers`: v9 compares stripped prefixes but the resolvers
  don't strip, so a row whose prefix ends in a space can be dropped although it resolved a path (`SpacedRowIsVisible`).
- `PathLaws.CanonicalIsExpandedIff` and `NoLocalIff`: with no rows at all an unclean path is handed back unclean by one
  resolver and clean by the other, and a matching row without a local prefix loses the path.
- `PathLaws.AllReturnIff`: a local prefix that is the root or has spaces around it breaks the round trip.
- `ScheduleMigration.RepinnedScheduleStaysIff`: after a start that a failing save cut short, v14 runs again and takes off
  a pin set in between.
- `NodeMigration.RollbackReusesIff`: normalising an address twice can differ from normalising it once (an address ending
  in two node routes), and then an upgrade after a rollback makes a second node.
- `LegacyGroups.LegacyAccepted`: old settings are refused exactly for more than 64 CPU workers, a GPU with an unusable
  device or a blank name, or more than 64 groups.

## Model

| member | source | states |
|---|---|---|
| StoredMarkers.SavedIsReadBack | emby-plugin/Markers/StoredMarkers.cs:30-72 | every record a write saves, the one a DELETE leaves included, is read back as itself; deleting is the outcome exactly when neither set has markers |
| StoredMarkers.ReadableShapes | emby-plugin/Markers/StoredMarkers.cs:42-51 | exactly which records can be used: a valid set with or without a valid replaced one, or only a replaced one; replacing never nests |
| StoredMarkers.ValidIff | emby-plugin/Markers/StoredMarkers.cs:30-40 | which requests are accepted, on their fields: an intro or credits, start and end together and in order, no negative time, a positive size |
| MarkerRows.RowsForOfGroup | emby-plugin/Markers/MarkerChapters.cs:21-37 | picking a type's rows out of the wanted rows gives that type's rows and no others |
| MarkerRows.OrderByStartSorts | emby-plugin/Markers/MarkerChapters.cs:52 | the final ordering is by start and loses or doubles nothing |
| MarkerRows.ApplyConserves | emby-plugin/Markers/MarkerChapters.cs:46-53 | the file's chapters survive a swap as the same multiset; per type the result is the others' rows or ours, never a mix unless asked for; ordered by start |
| MarkerRows.AppliedOrigin | emby-plugin/Markers/MarkerChapters.cs:46-53 | every row after a swap is a wanted one or was there and isn't one of the old or replaced rows |
| MarkerRows.AppliedKeeps | emby-plugin/Markers/MarkerChapters.cs:46-53 | a row nobody named stays when replacing wasn't asked for |
| MarkerRows.WrittenIsShown | emby-plugin/Markers/MarkerChapters.cs:45-53 | a reported count of rows is the number of rows the type shows, and they are the wanted ones; none reported means the type was left as it was |
| MarkerRows.SameRowsTwin | emby-plugin/Markers/MarkerChapters.cs:82-84 | lists the program calls the same have a twin for every row |
| MarkerRows.SameRowsByGroup | emby-plugin/Markers/MarkerChapters.cs:82-84 | such lists agree type by type |
| MarkerProtocol.RowsOfSet | emby-plugin/Markers/MarkerChapters.cs:20-37 | which rows are a set's: "Intro" of type start at its start, "Intro End" of type end at its end, "Credits" at its credits |
| MarkerSafety.ShownIsFaithful | emby-plugin/Markers/MarkerChapters.cs:55-80 | what a write takes down before it starts is valid, names every row of ours on the item and nothing the store didn't name |
| MarkerSafety.WriteKeepsInv | emby-plugin/Api/BridgeService.cs:228-278 | one write keeps the invariant whichever of its saves fails, is rolled back or is the last before a stop |
| MarkerSafety.HealKeepsInv | emby-plugin/Markers/MarkerHealer.cs:64-91 | so does an item update |
| MarkerSafety.StepKeepsInv | emby-plugin/Api/BridgeService.cs:132-278 | every step keeps it, rows lost to Emby and rows others add included |
| MarkerSafety.EveryRunNamesEveryRow | emby-plugin/Api/BridgeService.cs:228-265 | safety over all runs: the store always reads back, and every row the plugin has on the item is, by type, name and start, one of the stored or the replaced set's |
| MarkerSafety.DeleteAlwaysCleansUp | emby-plugin/Api/BridgeService.cs:185-226 | after any run, a DELETE that goes through leaves no file and no row of ours |
| MarkerSafety.StaleUpdateRemovesOurRows | emby-plugin/Markers/MarkerHealer.cs:69-76 | after any run, an update takes every row of ours off the item when both sizes are known and differ, or both paths are |
| MarkerRecovery.HealConverges | emby-plugin/Markers/MarkerHealer.cs:78-90 | when no known size or path differs, one update ends an interrupted write: no replaced set left, and a type that was whole shows exactly one "Intro" at the start and one "Intro End" at the end, or one "Credits", or nothing; chapters untouched |
| MarkerRecovery.HealIdempotent | emby-plugin/Markers/MarkerHealer.cs:57-91 | a second update changes nothing, for every item |
| MarkerRecovery.EveryRunRecovers | emby-plugin/Markers/MarkerHealer.cs:57-91 | that and the second update that changes nothing, after any run of the protocol |
| MarkerRecovery.ChaptersNeverChange | emby-plugin/Markers/MarkerChapters.cs:46-53 | each of the file's own chapters is there as often as before, after every operation, failed or stopped ones included |
| MarkerRecovery.OthersNeverChange | emby-plugin/Markers/MarkerChapters.cs:110-122 | nobody else's row that no stored set names is lost or doubled, unless a POST with markers of its type was asked to replace them |
| MarkerRecovery.PostDelivers | emby-plugin/Api/BridgeService.cs:132-183 | after any run, a POST that goes through stores the request's fields with the item's path; the item then shows exactly one "Intro" and one "Intro End" and one "Credits" at the times asked for, of every type nobody else is to keep, and of any other type no row of ours; with another known size it shows nothing of ours |
| MarkerSharedEndpoint.SharedEndpointLosesARow | emby-plugin/Markers/MarkerChapters.cs:60-80 | for every pair of intros sharing one endpoint, a run that ends with a row of ours no record names |
| MarkerSharedEndpoint.CleanUpIffApart | emby-plugin/Api/BridgeService.cs:228-265 | that run cleans up if and only if the intros are equal or share neither endpoint |
| MarkerSharedEndpoint.HealKeepsIntroIffApart | emby-plugin/Markers/MarkerHealer.cs:78-84 | an update keeps the stored intro whole if and only if the replaced one is apart |
| MarkerBridge.AddType | emby-plugin/Markers/MarkerChapters.cs:110-122 | the list edit is the group swap the laws are about, and the number written counts its rows |
| MarkerBridge.Apply | emby-plugin/Markers/MarkerChapters.cs:46-53 | the whole swap, with the number of our rows it holds |
| MarkerBridge.ShownOf | emby-plugin/Markers/MarkerChapters.cs:60-80 | the loop over both sets finds, per type, the first set that shows a row |
| MarkerBridge.MarkerStore.SaveReplacing | emby-plugin/Markers/MarkerStore.cs:69-77 | saves both sets, or deletes the file when neither has markers |
| MarkerBridge.MarkerStore.Load | emby-plugin/Markers/MarkerStore.cs:80-114 | the file's record, or none for an unusable one |
| MarkerBridge.MarkerStore.Delete | emby-plugin/Markers/MarkerStore.cs:116-126 | the file is gone; the answer says whether there was one |
| MarkerBridge.MarkerStore.DeleteIfGone | emby-plugin/Markers/MarkerStore.cs:142-148 | deletes only for an item that is gone |
| MarkerBridge.BridgeService.RestoreStore | emby-plugin/Api/BridgeService.cs:267-278 | the roll-back puts the previous record back, or stays silent when it can't |
| MarkerBridge.BridgeService.WriteStoreThenChapters | emby-plugin/Api/BridgeService.cs:228-265 | the three saves on mutable stores are the protocol's write; an answer of success exactly when the rows went through, a failure exactly when a save before that raised, and then the rows are as they were and the store too once rolled back |
| MarkerBridge.BridgeService.Post | emby-plugin/Api/BridgeService.cs:132-183 | a POST on mutable stores is the protocol's POST; when it is refused, fails or succeeds, and the number of rows it reports |
| MarkerBridge.BridgeService.Delete | emby-plugin/Api/BridgeService.cs:185-226 | a DELETE is the protocol's DELETE, and succeeds exactly when the rows went through |
| MarkerBridge.BridgeService.OnItemUpdated | emby-plugin/Markers/MarkerHealer.cs:57-98 | the healer's handler is the protocol's item update |
| Bits.LowestBit | media_preview_generator/worker_groups.py:226 | n & -n is the lowest set bit of n alone |
| Bits.TrailingRun | media_preview_generator/worker_groups.py:228 | n ^ (n + 1) is one more one than n ends with |
| Bits.ClearSmaller | media_preview_generator/worker_groups.py:232 | clearing a run of set bits makes a smaller number: the peeling loop ends |
| Clock.TimesCompareAsStrings | media_preview_generator/quiet_hours.py:40 | comparing padded times as strings compares the times |
| WeeklyMask.FoldedCovers | media_preview_generator/worker_groups.py:174-179 | folding a segment back into the week is counting round the week, Sunday night included |
| WeeklyMask.CoversOnDays | media_preview_generator/worker_groups.py:174-178 | and in days: within the start day, or from there into the next one when the window ends earlier than it starts |
| WeeklyMask.GroupWeeklyMask | media_preview_generator/worker_groups.py:165-180 | bit m is set exactly when the group is on and always open or some window of some day covers minute m; no bit lies outside the week |
| WeeklyMask.AddWindow | media_preview_generator/worker_groups.py:173-179 | one window adds exactly the minutes it covers, overlaps counting once |
| WeeklyMask.GroupIsAvailable | media_preview_generator/worker_groups.py:183-193 | the shortcut branches and the mask agree on what open means |
| Peak.LowestRun | media_preview_generator/worker_groups.py:226-229 | the bit tricks find a maximal run: all of it set, the bits around it not |
| Peak.PeelRun | media_preview_generator/worker_groups.py:225-232 | one round moves a run from the mask into the changes without altering any minute's total |
| Peak.AddRuns | media_preview_generator/worker_groups.py:223-232 | a policy's runs add its count to exactly its minutes |
| Peak.Sweep | media_preview_generator/worker_groups.py:233-237 | the sweep over sorted points is the largest running total over all minutes |
| Peak.PeakOf | media_preview_generator/worker_groups.py:221-237 | the peak is exactly the largest summed count over the 10080 minutes: never exceeded, and reached |
| WorkerGroups.FlatLoad | media_preview_generator/worker_groups.py:107-143 | flattening groups into policies keeps every machine's load at every minute |
| WorkerGroups.PeakFits | media_preview_generator/worker_groups.py:240-260 | the peak is within the limit exactly when every minute is |
| WorkerGroups.CheckMachine | media_preview_generator/worker_groups.py:245-260 | the two totals of one machine pass exactly when no minute overloads it |
| GroupValidation.CheckCapacity | media_preview_generator/worker_groups.py:432-443 | the app's totals and every used node's pass exactly when no machine at all is overloaded at any minute |
| GroupValidation.CleanEach | media_preview_generator/worker_groups.py:407-431 | the loop rejects at the first bad group, ids checked against the ones before |
| GroupValidation.ValidateWorkerGroups | media_preview_generator/worker_groups.py:387-444 | cleans in order, then admits exactly what never opens more than 64 workers of a kind on a machine at any minute; AcceptedIff and ReturnedGroups say both on the stored JSON |
| GroupMeaning.AcceptedIff | media_preview_generator/worker_groups.py:387-444 | said of the stored JSON alone: accepted exactly when there are at most 64 groups, each good on its own, no two with one id, and the stored counts of the groups whose stored hours are open never exceed 64 of a kind on a machine |
| GroupMeaning.ReturnedGroups | media_preview_generator/worker_groups.py:328-431 | what comes out for each stored group: its id, stripped name, switch and mode, each window's times and chosen days in order, each member's resource, device, count, kinds and node; and its hours are open exactly when the stored ones are |
| GroupMeaning.FitsIff | media_preview_generator/worker_groups.py:240-260 | the capacity limit on the returned groups is the limit on the stored ones, minute by minute |
| GroupAcceptance.GroupAcceptedIff | media_preview_generator/worker_groups.py:409-431 | exactly which stored groups are accepted after others: the condition on its own fields, and an id of its own |
| GroupAcceptance.MemberListAcceptedIff | media_preview_generator/worker_groups.py:274-361 | exactly which member lists: each member good on its own, ids and budgets all different |
| GroupAcceptance.HoursAcceptedIff | media_preview_generator/worker_groups.py:364-384 | exactly which availabilities |
| GroupValidation.WindowRoundTrip | media_preview_generator/worker_groups.py:364-384 | a cleaned window cleans to itself |
| GroupValidation.MemberRoundTrip | media_preview_generator/worker_groups.py:274-325 | so does a cleaned member |
| GroupValidation.ValidationIsIdempotent | media_preview_generator/upgrade.py:1925-1932 | validating what validation returned returns the same groups: v22's no-op comparison is sound |
| LegacyGroups.AppendGpus | media_preview_generator/worker_groups.py:500-516 | one loop over GPUs spends the shared budget in order and skips repeated devices |
| LegacySettings.ReadGpuConfig | media_preview_generator/worker_groups.py:500-510 | the entries that count, each read with its defaults |
| LegacySettings.GroupsFromLegacy | media_preview_generator/worker_groups.py:447-517 | old settings of any shape: accepted exactly when they read and fit, and then the switched-on counts are what the stored entries and the detection ask for, the first entry of each device counting, GPUs up to 64, and the stored CPU count |
| LegacySettings.DeviceGetsGroup | media_preview_generator/worker_groups.py:500-510 | every configured device has a group of its own, with the entry's name or the device's |
| LegacyGroups.GpuBudgetSpent | media_preview_generator/worker_groups.py:479-494 | the switched-on GPU counts add up to exactly min(64, what the old release used); the CPU count is kept |
| LegacyGroups.LegacyAccepted | media_preview_generator/worker_groups.py:447-517 | accepted exactly when the CPU has at most 64 workers, each GPU's first entry has a usable device and a name that isn't blank, and at most 64 groups come of it; only spaces around names change |
| LegacyGroups.SixtyFiveIsTooMany | media_preview_generator/worker_groups.py:496-499 | a refused input: 65 CPU workers |
| NextOpening.NextMaskOpening | media_preview_generator/worker_groups.py:196-213 | the earliest elapsed minute whose local minute is in the mask; never none for a weekly mask when the clock changes at most once |
| NextOpening.OneChangeOpens | media_preview_generator/worker_groups.py:206-213 | the pigeonhole: one side of a clock change holds an unbroken week |
| NextOpening.OneWeekIsNotEnough | media_preview_generator/worker_groups.py:206-208 | for every minute there is a clock with one change that skips it for a whole week |
| NextOpening.NextGroupOpening | media_preview_generator/worker_groups.py:216-218 | a group's next opening in terms of its hours, found whenever it is ever open |
| QuietHours.MigrateQuietHours | media_preview_generator/quiet_hours.py:19-46 | the whole rewrite, for settings of any shape |
| QuietHours.RuleKept | media_preview_generator/quiet_hours.py:40-45 | one rule and what it becomes cover the same minutes of the same days |
| QuietHours.MigrationKeepsMeaning | media_preview_generator/quiet_hours.py:19-46 | the migrated hours are quiet at a minute of a day exactly when the stored settings said so: some rule of a non-empty list, or the single old window without one; an overnight rule covers both ends of its days |
| QuietHours.StartRuleKept | media_preview_generator/quiet_hours.py:44-45 | one rule on start days keeps its minutes, an overnight one those of the next day too |
| QuietHours.StartDaysKeepMeaning | media_preview_generator/quiet_hours.py:19-46 | and for settings already on start days: some rule of the list, none for an empty one, the single window without a list; an overnight rule runs into the next day |
| QuietHours.MigrationIsIdempotent | media_preview_generator/quiet_hours.py:22-24 | migrating what a migration stored changes nothing |
| QuietHours.IntIsPlain | media_preview_generator/quiet_hours.py:10-16 | Python's reading of numbers meets the one thing idempotence needs of it |
| QuietHours.QuietHoursWeeklyMask | media_preview_generator/quiet_hours.py:49-62 | the mask of paused minutes means what the settings on disk meant, old windows or new |
| Paths.MatchesClean | media_preview_generator/config/paths.py:153-164 | matching a path already cleaned is matching the path |
| Paths.AddMapped | media_preview_generator/config/paths.py:347-359 | one direction adds its forms, each once, and the set stays the list's members |
| Paths.AddRow | media_preview_generator/config/paths.py:361-375 | one row's directions in the program's order |
| Paths.ExpandPathMappingCandidates | media_preview_generator/config/paths.py:318-377 | the fan-out loop, early exits included, is the expansion the laws are about |
| PathLaws.AddAllMembers | media_preview_generator/config/paths.py:343-377 | the list holds exactly what some direction offers, nothing twice |
| PathLaws.ExpandedStartsWithPath | media_preview_generator/config/paths.py:330-343 | the candidates start with the cleaned path and never repeat |
| PathLaws.EitherKey | media_preview_generator/config/paths.py:305 | both resolvers read the server's prefix under the older key as under the newer, which wins when a row has both |
| PathLaws.WindowsFormOffered | media_preview_generator/config/paths.py:135-150 | a file under a row's local prefix is also offered with backslashes when the server's prefix is a Windows path, doubled ones kept only in front |
| PathLaws.CanonicalIsExpandedIff | media_preview_generator/config/paths.py:283-377 | when the matching row has a local prefix, the first-match path is among the candidates, with the exact exception of an unclean path and no rows |
| PathLaws.NoLocalIff | media_preview_generator/config/paths.py:306-309 | a row without a local prefix loses every path it matches but the root |
| PathLaws.ExpandingCanonicalReturns | media_preview_generator/config/paths.py:283-377 | round trip for local prefixes that aren't the root and have no spaces around them: expanding the first-match path lists the original again |
| PathLaws.AllReturnIff | media_preview_generator/config/paths.py:283-377 | and exactly those, for one row: every path comes back if and only if the local prefix is such a one, or the server's own with spaces on one side |
| PathMigration.DoubleCopyUndone | media_preview_generator/upgrade.py:1226-1275 | the doubled list de-duplicates to the original list de-duplicated |
| PathMigration.DedupIsIdempotent | media_preview_generator/upgrade.py:1197-1283 | de-duplicating twice is de-duplicating once |
| PathMigration.DroppedRowsAreInvisible | media_preview_generator/upgrade.py:1226-1275 | when each dropped row is covered by the ones with its key before it, neither resolver can tell which rows were dropped, for any path |
| PathMigration.DroppableIffCovered | media_preview_generator/config/paths.py:304-315 | exactly when a row can be dropped after another without changing a first match, in any list: each of its prefixes that can match a path lies under one of the other's |
| PathMigration.FanOutDroppableIffOffers | media_preview_generator/config/paths.py:361-375 | exactly when it can without changing the candidates: each of its directions that can offer something is one of the other's |
| PathMigration.UnspacedTwins | media_preview_generator/upgrade.py:1236-1246 | rows without spaces around prefixes are all covered in that way |
| PathMigration.SpacedRowIsVisible | media_preview_generator/upgrade.py:1236-1246 | a row v9 drops although it isn't covered, and a path that shows it |
| PathMigration.DedupLoop | media_preview_generator/upgrade.py:1233-1262 | the loop over seen keys keeps the first row of each key, in order |
| PathMigration.CleanServer | media_preview_generator/upgrade.py:1226-1275 | one server's two lists, written back only when shorter, come out de-duplicated |
| PathMigration.SettingsManager.MigrateToV7 | media_preview_generator/upgrade.py:986-1085 | the old flat settings become one server, or none, unless servers exist |
| PathMigration.SettingsManager.MigrateToV8 | media_preview_generator/upgrade.py:1088-1194 | global rules are appended to the only server and cleared; with no server or several they stay |
| PathMigration.GlobalRulesMove | media_preview_generator/upgrade.py:1137-1181 | with exactly one server its lists end as its own followed by the global ones, which are cleared; otherwise nothing moves |
| PathMigration.SettingsManager.MigrateToV9 | media_preview_generator/upgrade.py:1197-1283 | every server's lists are de-duplicated |
| PathMigration.ExcludesOnce | media_preview_generator/upgrade.py:1254-1270 | de-duplicated exclude rules say everything the list said and nothing twice: rules are the same when value and type are |
| PathMigration.SingleServerUpgrade | media_preview_generator/upgrade.py:1032-1283 | v7, v8 and v9 leave the original global list, first occurrences only, on the one server |
| PathMigration.UpgradeKeepsEveryPath | media_preview_generator/upgrade.py:1032-1283 | when what is dropped is covered, every path resolves and expands as through the original global list |
| ScheduleMigration.RewriteOnlyUnpins | media_preview_generator/upgrade.py:1666-1676 | a schedule whose job type is recently added and whose priority is 2 gets none, every other one and everything else stays as it is, and no pin is left |
| ScheduleMigration.UnpinListLoop | media_preview_generator/upgrade.py:1583-1605 | the loop over a list rewrites each record, and counts none exactly when nothing was pinned |
| ScheduleMigration.UnpinMapLoop | media_preview_generator/upgrade.py:1583-1605 | so does the loop over a mapping |
| ScheduleMigration.AtMostThreeAttempts | media_preview_generator/upgrade.py:54-89 | over every history of starts that go through, at most three attempts, whether or not the counter's own saves work |
| ScheduleMigration.FailingUpgradeTriesThrice | media_preview_generator/upgrade.py:557-603 | and an upgrade that keeps failing makes exactly min(starts, 3) |
| ScheduleMigration.AbortedStartsKeepTrying | media_preview_generator/upgrade.py:602-627 | the bound needs starts that go through: while the closing save raises, every start tries again |
| ScheduleMigration.OverForGood | media_preview_generator/upgrade.py:557-603 | once the gate is past v14 with no retry pending, no later start runs it or touches the schedules, however its saves behave |
| ScheduleMigration.AttemptUnpins | media_preview_generator/upgrade.py:1608-1698 | a settled attempt leaves no pin, a failed one leaves the schedules as they were, and nothing else is ever written |
| ScheduleMigration.SettledIsFinalIff | media_preview_generator/upgrade.py:1608-1698 | a settled attempt is final exactly when the start goes through, or the gate was past v14 before and some save of the cleared counter worked |
| ScheduleMigration.RepinnedScheduleStaysIff | media_preview_generator/upgrade.py:602-627 | exactly then a schedule pinned again keeps its pin through the next start; after a start cut short by a save that raised, it loses it |
| ScheduleMigration.RepinnedScheduleStays | media_preview_generator/upgrade.py:1608-1698 | and then through any history of starts |
| ScheduleMigration.Install.MigrateToV14 | media_preview_generator/upgrade.py:1608-1698 | one attempt on memory and both files, every failure branch included; a counter that couldn't be saved stays in memory |
| ScheduleMigration.Install.MigrateSchema | media_preview_generator/upgrade.py:536-627 | the version gate, its retry exception, the later steps' saves and the closing one, which writes all of memory |
| NodeMigration.HelperNameIsFree | media_preview_generator/upgrade.py:2038-2056 | the name search always finds an unused name, by counting the names it would otherwise have passed |
| NodeMigration.HelperNodeName | media_preview_generator/upgrade.py:2038-2056 | the loop ends, with the first free number |
| NodeMigration.PlainNamesAreNumbered | media_preview_generator/upgrade.py:2048-2053 | numbered names differ however the server's own name is cut |
| NodeMigration.NewNamesFit | media_preview_generator/upgrade.py:2049-2053 | every new name is within 80 characters unless the number alone needs 65 digits |
| NodeMigration.NewNamesRead | media_preview_generator/upgrade.py:2016-2025 | every new node is called "Plex helper (…)" after one of the servers as its name may be shown, numbered from 2 on, in full when it fits 80 characters |
| NodeMigration.MovedServersNameTheirNode | media_preview_generator/upgrade.py:1993-2029 | field by field: every server keeps name and switch; a helper with an address or key loses both, and keeps its node id, or names a node with its normalised address and key and keeps its switch, or gets a null id and stays on only with an address |
| NodeMigration.ServersShareIff | media_preview_generator/upgrade.py:2015-2029 | two helpers that got a node got the same one exactly when their normalised addresses and their keys were equal |
| NodeMigration.NodeIsOnIff | media_preview_generator/upgrade.py:2014-2028 | a node is on exactly when it was on before or a switched-on server with its helper on came out naming it |
| NodeMigration.NodesListAfter | media_preview_generator/upgrade.py:2016-2035 | old nodes keep place and fields, new ones are used, stand alone at their address and have names like no other; the revision counts a change of the list |
| NodeMigration.SecondRunChangesNothing | media_preview_generator/upgrade.py:1968-1972 | a second run changes nothing |
| NodeMigration.RollbackReusesIff | media_preview_generator/upgrade.py:1968-1969 | an upgrade after a rollback ends where the first one did exactly when every new node's address normalises to itself |
| NodeMigration.TwoRoutesTwoNodes | media_preview_generator/nodes/settings.py:83-85 | an address with two node routes behind it, whatever it is, doesn't: the second upgrade makes a second node |
| NodeMigration.BuildByAddress | media_preview_generator/upgrade.py:1981 | of two nodes at one address and key the later one is found |
| NodeMigration.MoveOne | media_preview_generator/upgrade.py:1986-2029 | the loop body on lists and dictionaries, and whether it switched a node on |
| NodeMigration.MoveAll | media_preview_generator/upgrade.py:1986-2029 | the loop, whose flags say exactly whether the list changed |
| NodeMigration.SettingsManager.MigrateToV24 | media_preview_generator/upgrade.py:1975-2035 | the whole step: the list and its revision are written exactly when the list differs |
| ScanFilters.LastSeasonsIff | media_preview_generator/scan_filters.py:202 | a season is in the sorted list's end exactly when fewer than N distinct seasons are larger |
| ScanFilters.FiltersIntersect | media_preview_generator/scan_filters.py:174-215 | an uncancelled run yields, in order, exactly the positions the three filters would each keep alone |
| ScanFilters.EpisodeKeptIff | media_preview_generator/scan_filters.py:190-203 | the seasons filter keeps an episode exactly when its season is positive and fewer than N larger ones of its show are anywhere in the library, and anything else of a known type |
| ScanFilters.AddedKeptIff | media_preview_generator/scan_filters.py:230-244 | the added-date filter keeps exactly what was added in the last days up to now, or on a local date of the range, ends included |
| ScanFilters.YearsKeptIff | media_preview_generator/scan_filters.py:245-261 | the year filter keeps movies of the years, ends included, and everything known not to be a movie |
| ScanFilters.ReasonIsTrue | media_preview_generator/scan_filters.py:225-262 | every reason counted is true of its item, and the added date is the reason given whenever it is one |
| ScanFilters.NothingIsLost | media_preview_generator/scan_filters.py:208-215 | yielded and excluded items together are the items the run came to |
| ScanFilters.CancelGivesAPrefix | media_preview_generator/scan_filters.py:193-210 | a cancelled run yields the beginning of the uncancelled one |
| ScanFilters.CollectSeasons | media_preview_generator/scan_filters.py:188-203 | the first pass collects exactly the positive seasons of each show, or stops |
| ScanFilters.FilterPass | media_preview_generator/scan_filters.py:208-215 | the second pass and the counter it adds to |
| ScanFilters.Select | media_preview_generator/scan_filters.py:174-215 | both passes with every check for cancellation, in order |
| VulkanCache.EveryRunKeepsInv | media_preview_generator/gpu/vulkan_check.py:525-572 | the invariant of cache, lock, readers and generation in every interleaving |
| VulkanCache.CachedAnswersAreNew | media_preview_generator/gpu/vulkan_check.py:559-571 | every cached entry comes from a check of its key that began after the latest clear |
| VulkanCache.LookupsAfterAClearAreNew | media_preview_generator/gpu/vulkan_check.py:531-536 | a lookup that starts after a clear never returns an answer begun before it |
| VulkanCache.NoTwoAtOnce | media_preview_generator/gpu/vulkan_check.py:526-527 | no two checks run at once |
| VulkanCache.OneCheckPerGeneration | media_preview_generator/gpu/vulkan_check.py:554-571 | between two clears at most one check of a key completes |
| VulkanCache.SomeoneCanMove | media_preview_generator/gpu/vulkan_check.py:551-572 | no deadlock: while a lookup is under way some reader can move |

## Left out

- Store files: each save is one atomic step; the temporary file, the flush and the rename, files cut short and the
  warning shown once for an unreadable file are not modelled.
- Emby hosting: events, the removal of items and the sweep of orphaned files are not steps of the protocol; the item's
  current file size is a parameter.
- Ticks and counts are unbounded integers: the plugin only compares ticks, it does no arithmetic on them.
- A null path or chapter name counts as the empty one, and requests for items that are missing or no video are left out.
- The Jellyfin plugin: it has no second copy to keep in step.
- HTTP, FFmpeg, GPU probing, SQLite, locks' own behaviour, log and error wording: a refusal is one value without text.
- Time zones: the local clock is an arbitrary function from elapsed minutes to minutes of the week, and from instants to
  calendar dates that may fail.
- `future_capacity`, `supports_job` and the resource keys of `worker_groups.py`: selections over the policies modelled here.
- Surrounding spaces are ASCII whitespace and paths are taken to be in NFC. Python's `int` on text and `str` on values
  that aren't text are parameters; `PyInt` is the first one for ASCII text.
- Path mapping rows that aren't objects, and the raw defaults of `normalize_path_mappings`.
- The device digest is any function that gives 16 hexadecimal characters and tells the devices at hand apart.
- Settings migrations other than v7, v8, v9, v14, v22's comparison and v24, and the backup taken before migrating.
- v24's address, name and id rules are parameters: numbered names must not look alike and new ids must be fresh. Entries
  of the nodes list that aren't objects, and fields the step doesn't read, are not modelled; the shared node dictionary
  is an index into the list.
- The validation of the scan filters' own settings: a validated number of seasons is a precondition.
- PathMigration.SettingsManager.MigrateToV7: the new entry's name, libraries, authentication, output and webhook fields
  are left out; only its id and its path rules are read by the later steps modelled here.
- PathMigration.FanOutDroppableIffOffers: for a row with Windows prefixes only one direction is stated.
- Restoring a settings backup while the app runs, which migrates the settings already in memory.
- `check_gpus` itself: a check is one value that records its key and when it began, or raises.
- NextOpening.OneChangeOpens: clocks that change more than once in 15 days are covered by the search's own result only.
