# Open Linux Router: the parts that must not go wrong

This project models six parts of Open Linux Router and proves what they promise.

- **The connectivity trial** (`RecoverySpec`, `RecoverySafety`, `RecoveryRuns`, `RecoverySteps`, `Recovery`, on top of
  `Json` and `Store`). A risky change is made on trial: the whole configuration is journalled first, and unless the operator
  confirms in time, a timer, a restart or a request puts it back. `RecoverySpec` is the state machine: memory, journal,
  stored document, clock readings, the rollback action, the timer's look outside the lock, and a crash at any disk
  step. `RecoverySafety` states the rules on the trace alone, in a monitor that knows nothing of the machine, and shows
  that every run obeys them. `RecoveryRuns` reads the rules as promises about whole runs. `RecoverySteps` says what each
  request does, on the machine before and after it. `Recovery` is the object whose methods change the fields, each
  proved to take exactly the machine's step.
- **Plan, render and apply of the DHCP module** (`Render`, `Plan`, `Apply`). Which action is enough for the daemon to
  hold what is on disk, and that an apply converges from whatever an earlier one left.
- **Addresses and leases** (`Subnet`, `Dhcp`, `Leases`, `Dropped`, `Duration`). Derived ranges, the validator, the
  lease ceiling, pool usage, which clients lose their address, and the duration text.
- **Three algorithms** (`BrandLogo`, `Diff`, `Schema`). Typo-tolerant substring cost with a cap and two reused rows, a
  shortest edit script, and a walk that edits a possibly cyclic graph of nodes in place.
- **Device groups** (`Groups`, `GroupEdits`, `GroupMoves`, `GroupRequests`, `GroupConfig`). A forest kept as parent names, through
  validation, removal, renaming and moves.
- **Merge patch and the backend watch** (`MergePatch`, `Supervise`).

`Wrappers`, `Ordering` and `Strings` hold what several of these share. Parts of the code that step through variables,
arrays or fields are methods and classes here; each is tied by its `ensures` to a function or predicate, and the
properties are proved about that.

Where code and comment or design disagree, the model follows the code:

- The comment on `leaseMax` calls the sum a true upper bound. For stateful IPv6 a range is written for every member of
  a network but counted once for its pool, so the bound can fail: `Leases.StatefulBoundFails` is such a configuration,
  `Leases.StatefulBoundHolds` says for every configuration whether it holds.
- An apply that stops between two files, or between the files and the unit, is forgotten by the next plan, which
  compares the disk alone. `Apply.InterruptedApply` says, for every part of the work that may have landed, which action
  the next apply takes and exactly when it leaves the daemon with what is on disk; `Apply.MidWriteIsNotMended` is a
  family of boxes on which it does not, and `Apply.TwoFilesExist` one of them.
- A unit seen `activating` is left alone even when its files changed: `Apply.ActivatingIsLeftAlone`.
- `Load` is described as always restoring at once after a restart. `RecoveryRuns.RestartRestores` says exactly when it
  does; `RecoveryRuns.StartMayNotRestore` is a run in which it does not. When the start is hindered and survives, the
  trial stays in memory and in the journal, and the timer tries again.
- `Duration.String` below a second prints what `ParseDuration` cannot read: `Duration.RoundTrip` says exactly which
  durations come back.
- `RangeSize` counts the whole 32-bit space as 0 addresses: `Leases.RangeSizeIsCount`. A range that passes validation
  is never that one.

## Model

| member | source | states |
|---|---|---|
| Json.ParsePrinted | internal/core/backup.go:110-157 | Reading the tokens of any value, whatever follows them, gives that value and leaves what followed |
| Json.ParseSound | internal/core/backup.go:110-157 | Conversely, a stream that reads as a value starts with exactly that value's tokens |
| Json.UniqueMembersMeaning | internal/core/backup.go:124-140 | Checking names one by one against a growing set amounts to: the names are pairwise different, none was there before, and every value is free of repeats |
| Json.Walk | internal/core/backup.go:110-157 | On any decoder position that allows a value: succeeds exactly when a value free of repeated names comes next, and then has consumed exactly it |
| Json.UniqueJSON | internal/core/backup.go:110-157 | Accepts exactly the streams that are one whole value with no repeated member name in any object at any depth |
| Ordering.LeqMeans | internal/core/store.go:262-267 | The order of names: a name comes before those it begins, and else the first different character decides |
| Strings.TrimMeans | internal/devices/config.go:193-222 | Trimming takes away space at either end, and leaves none there |
| Store.WriteOrder | internal/core/store.go:250-269 | Mounted modules in mount order, then the remaining keys sorted, whatever order the map is walked in |
| Store.Encode | internal/core/store.go:215-246 | Writes the tokens of one object: the schema key, then every other key once in write order |
| Store.Decode | internal/core/store.go:172-191 | Fails on anything that is not an object or null; otherwise the keys without the schema key, and the unknown ones sorted |
| Store.EncodedLayout | internal/core/store.go:215-246 | The token layout the loop writes, brace to brace, is the print of one JSON object: the schema member and then one member per key in write order |
| Store.DecodeEncoded | internal/core/store.go:172-269 | Decoding an encoded document always succeeds, and returns its keys but for a smuggled schema key, with the unknown list recomputed |
| Store.RoundTrip | internal/core/store.go:172-269 | A document comes back from disk unchanged if and only if it holds no schema key of its own and its unknown list is current |
| Store.DecodedSettled | internal/core/store.go:172-191 | Whatever decoding returns will survive being written and read again |
| Store.SetSettled | internal/core/store.go:83-90 | Replacing a mounted module's subtree keeps a document one that survives the disk |
| Store.EncodedIsUnique | internal/core/store.go:215-246 | What is written passes the duplicate check of a restore if and only if no subtree repeats a name and no second schema key is smuggled in |
| Store.OrderMeans | internal/core/store.go:250-269 | Every key is written once: the mounted modules' keys first, the others after them in byte order |
| Store.MountedIs | internal/core/store.go:250-257 | The first part is the mount list without the modules that are absent, in mount order |
| Store.UnknownAre | internal/core/store.go:181-190 | The unknown keys are those no module owns, each once, in byte order |
| Store.LastWinsMeans | internal/core/store.go:172-180 | Of members with one name the last value is read |
| Store.DecodedMeans | internal/core/store.go:172-191 | A file can be read if and only if it is the print of one object or of null; its keys are the object's without the schema key |
| Store.SetReadsBack | internal/core/store.go:83-90 | A subtree that was set is the one read back from disk, and every other key is as before |
| RecoverySafety.EveryRunIsLawful | internal/core/recovery.go:55-338 | In every run, over any failures, crashes, clock readings and journal damage: at most one trial; guarded writes admitted only before the deadline, with the trial's id and no revert under way; whatever is new in the store was admitted by the entry before it, on an open trial if it needs protection, or is the captured document saved by the rollback action of a journalled revert; confirmation only in time; a rollback ends the trial only with the captured document stored |
| RecoverySafety.StepKeeps | internal/core/recovery.go:55-338 | Every atomic step keeps memory, journal, disk and the trace-only monitor in agreement |
| RecoverySafety.RevertKeeps | internal/core/recovery.go:197-246 | A revert keeps that agreement wherever it fails or dies |
| RecoverySafety.BeginKeeps | internal/core/recovery.go:86-122 | Beginning a trial keeps the agreement, and success leaves a pending trial in memory |
| RecoverySafety.LoadKeeps | internal/core/recovery.go:124-155 | Starting up keeps the agreement, also with a journal that cannot be read |
| RecoverySafety.EditKeeps | internal/core/recovery.go:257-278 | A guarded change inside or outside a trial keeps the agreement |
| RecoverySafety.RestoreKeeps | internal/core/backup.go:159-231 | A backup restore, the protocol's second client, keeps the agreement, also when its own rollback breaks half way |
| RecoverySafety.RevertReads | internal/core/recovery.go:197-225 | The two documents a revert works on are those the trace names, read back from the journal after any number of crashes |
| RecoveryRuns.TrialPromises | internal/core/recovery.go:86-338 | In every run: no trial ends twice or overlaps another; a confirmation is strictly before the deadline and never after a journalled revert; every revert of a trial rolls back from the document stored at its first journalled revert to the one stored at its beginning; a write during a trial is admitted only by its id, before its deadline and before any revert, and none while the journal is unreadable; nothing new is stored but what was just admitted, under a trial if it needs one, or what a journalled revert restores |
| RecoveryRuns.LawfulAdmits | internal/core/recovery.go:257-278 | Admissions during a trial carry its id, precede its deadline and any journalled revert; none falls between a start that could not read the journal and the next that can |
| RecoveryRuns.LawfulStores | internal/core/recovery.go:55-67 | Every save of something new directly follows an admission, or the beginning of the trial of the write just admitted; if the write needs protection it lies in a trial that captured what was stored when it began, is not being reverted, and was begun by the write or named by it in time; under a journalled revert it is the document captured at that trial's beginning, brought by the rollback action |
| RecoveryRuns.LawfulEnds | internal/core/recovery.go:226-246 | A trial is over by rollback only as the last step of a call of the rollback action |
| RecoveryRuns.LawfulAlternates | internal/core/recovery.go:86-122 | Begins and ends of trials alternate |
| RecoveryRuns.LawfulConfirms | internal/core/recovery.go:312-338 | Confirmations respect the deadline and any revert under way |
| RecoveryRuns.LawfulRollbacks | internal/core/recovery.go:197-246 | All reverts of a trial, over retries and crashes, hand the rollback the same two documents and the runtime captured at its start |
| RecoveryRuns.IdleMeansSettled | internal/core/recovery.go:183-246 | If the router is up and idle and its latest trial was not confirmed, that trial was rolled back with the captured document stored, and it is what the disk holds if nothing was saved since |
| RecoveryRuns.RestartRestores | internal/core/recovery.go:122-155 | Wherever a run died during a trial: the next start ends it if and only if the journal can be read, the store can be read or an earlier revert journalled what was there, and journal write, rollback and journal removal succeed; then the captured document is stored. A hindered start that survives keeps the trial in memory and journal; an unreadable journal admits no guarded write |
| RecoveryRuns.StartMayNotRestore | internal/core/recovery.go:122-155 | A concrete run: first start, a change on trial, a crash, and a start that leaves the changed document stored and the trial open |
| RecoveryRuns.TimerRestores | internal/core/recovery.go:157-181 | Once the deadline is past, one tick and lock hold end the trial if and only if nothing hinders the revert, with the captured document stored; otherwise the trial is still there or the process died |
| RecoveryRuns.RevertEnds | internal/core/recovery.go:197-246 | The same for any revert, at any point of any run: over if and only if nothing hinders it, and then restored |
| RecoverySteps.EditMeans | internal/core/recovery.go:55-67 | A guarded change reaches the disk if and only if nothing is on trial or the request is the pending trial's own in time, the trial it needs was begun or joined before its deadline, and it can be read and written; it replaces one module's subtree and nothing else, and a change that needs one has its trial pending in memory and journal with what was stored before |
| RecoverySteps.RestoreMeans | internal/core/backup.go:159-231 | A restore leaves the uploaded document stored on a trial that captured the old one; a broken one is reverted at once; one that finds a trial, or cannot begin its own, changes nothing |
| RecoverySteps.BeginsNew | internal/core/recovery.go:86-122 | A new trial is pending, its deadline is the time given, two minutes by default, after now, and it captures what is stored |
| RecoverySteps.ConfirmMeans | internal/core/recovery.go:312-338 | A confirmation ends the trial if and only if it names it, in time, before any revert, and the journal is removed; what is stored stays; any other changes nothing |
| RecoverySteps.RevertNowMeans | internal/core/recovery.go:312-338 | A requested revert that names the trial does what any revert does; any other changes nothing |
| RecoverySteps.TimerWaits | internal/core/recovery.go:157-181 | Before the deadline, read again under the lock, the timer changes nothing |
| RecoverySteps.ReapplyMeans | internal/core/lock.go:78-87 | A background reapply leaves the stored document and the trial as they are |
| RecoverySteps.FailureBacksOff | internal/core/recovery.go:234-246 | A failed rollback is tried again ten seconds later, and no guarded write is admitted until it has succeeded |
| RecoverySteps.StartMeans | internal/core/recovery.go:124-155 | A start without a journal is ready at once; one that cannot read it changes nothing and admits nothing |
| Recovery.Recovery.BeginTrial | internal/core/recovery.go:86-122 | Changes the fields exactly as the machine's begin does, for every failure and crash point |
| Recovery.Recovery.RevertTrial | internal/core/recovery.go:197-232 | Likewise for the journalled first half of a revert and what follows |
| Recovery.Recovery.Undo | internal/core/recovery.go:226-246 | Likewise for the rollback action and its end: trial cleared, or failed with a new deadline |
| Recovery.Recovery.ClearTrial | internal/core/recovery.go:183-195 | Likewise for the removal of the journal |
| Recovery.Recovery.LoadJournal | internal/core/recovery.go:124-155 | Likewise for startup |
| Recovery.Recovery.Look | internal/core/recovery.go:157-170 | The timer's look without the lock changes nothing but what it queued for |
| Recovery.Recovery.Fire | internal/core/recovery.go:170-181 | The timer rechecks under the lock before it reverts |
| Recovery.Recovery.ConfirmTrial | internal/core/recovery.go:312-338 | A confirmation is refused unless pending, in time and for this trial |
| Recovery.Recovery.RevertOnRequest | internal/core/recovery.go:312-338 | A requested revert is refused unless it names this trial |
| Recovery.Recovery.ProtectConnectivity | internal/core/recovery.go:55-67 | A risky change joins the trial its request names while that is pending and in time; any other begins one, which fails while a trial exists |
| Recovery.Recovery.Mutate | internal/core/lock.go:58-72 | A guarded write: the check is made under the lock, then the protection, then the change |
| Recovery.Recovery.RestoreDocument | internal/core/backup.go:159-231 | A backup restore: guard, begin, roll forward, revert when that broke |
| Schema.RelaxRoot | internal/core/schema.go:198-232 | Terminates on any finite graph, cycles included; clears `Required` and `DependentRequired` on exactly the nodes reachable through the listed keywords and changes no other node |
| Schema.ChildrenAre | internal/core/schema.go:206-231 | The sub-schemas of a node, keyword by keyword: the values of three maps, the properties, four lists and nine single fields, and no others |
| Schema.SubSchemas | internal/core/schema.go:206-231 | The list walked is exactly the children under all seventeen keywords |
| Schema.WithinTransitive | internal/core/schema.go:198-232 | Reachability composes, so what a child's walk reaches its parent's does |
| Schema.ExploredFromNothing | internal/core/schema.go:198-232 | A set closed under children but for what was seen before, started from nothing seen, is exactly the reachable set |
| BrandLogo.BestAttained | internal/brandlogo/brandlogo.go:323-353 | Every cell of the uncapped table is the cost of an actual edit script to a part of the slug |
| BrandLogo.BestMinimal | internal/brandlogo/brandlogo.go:323-353 | No edit script to a part ending there is cheaper |
| BrandLogo.TableIsFewest | internal/brandlogo/brandlogo.go:323-353 | The table's answer is the fewest edits between the query and any contiguous part of the slug |
| BrandLogo.TypoCost | internal/brandlogo/brandlogo.go:323-353 | With the cap, the two rows, the length shortcut and the early exit: succeeds exactly when that minimum is at most 2, and then returns it |
| BrandLogo.TypoCostMeaning | internal/brandlogo/brandlogo.go:323-353 | An answer is the exact distance to the nearest part; no answer means every script to every part costs more than two |
| BrandLogo.Extend | internal/brandlogo/brandlogo.go:323-353 | In an edit script keeping a character is free and replacing, deleting or inserting one costs one |
| Diff.LcsBounds | internal/core/diff.go:73-111 | No common subsequence of two texts is longer than the table says |
| Diff.UnchangedCommon | internal/core/diff.go:73-111 | The unchanged lines of any script are common to both texts, and fix its length |
| Diff.LcsScriptIsShortest | internal/core/diff.go:73-111 | A script that keeps as many lines as the table says is as short as any |
| Diff.FillTable | internal/core/diff.go:74-88 | Every cell is the longest common subsequence of the two suffixes |
| Diff.DiffOps | internal/core/diff.go:73-111 | The output's ' ' and '-' lines are the old text, its ' ' and '+' lines the new one, its unchanged lines a longest common subsequence, and no script is shorter; in every changed stretch the removed lines come before the added ones |
| Diff.LcsAttained | internal/core/diff.go:74-88 | The table's number is the length of an actual common subsequence |
| Subnet.BlockFits | internal/core/subnet.go:28-60 | A prefix's block holds its own address and fits in 32 bits; up to /30 it has at least four addresses |
| Subnet.ContainsBlock | internal/core/subnet.go:28-60 | Same network bits means lying between the network and the broadcast address |
| Subnet.SuggestRangeBounds | internal/core/subnet.go:105-137 | The derived range lies strictly between network and broadcast address, on one side of the router |
| Subnet.SuggestRangeWorks | internal/core/subnet.go:105-137 | For every IPv4 prefix of length 0 to 30 and any router: succeeds with 1 to 254 addresses, none of them network, broadcast or router |
| Subnet.SuggestRangeExactly | internal/core/subnet.go:105-137 | The derived range in numbers: the larger side of a router inside the prefix, above it on a tie; from .100 if at least 32 addresses are left there; to the end of the side or its 254th address |
| Subnet.HostRangeIs | internal/core/subnet.go:47-60 | The host range holds every address of the prefix but its first and last |
| Subnet.BlockEnds | internal/core/subnet.go:28-42 | Network and broadcast address are the first and last of the prefix, a block apart |
| Subnet.AssignableMeans | internal/dhcp/validate.go:243-268 | A range can be handed out if and only if it lies strictly between network and broadcast address and leaves out the router |
| Subnet.SuggestRangeUsual | internal/core/subnet.go:75-137 | On a /24 with the router below .100 the range is .100 to .254 |
| Subnet.SuggestRangeRefuses | internal/core/subnet.go:105-112 | Nothing is derived without room for hosts |
| Dhcp.AssignableChecks | internal/dhcp/validate.go:243-268 | The validator's separate tests amount to: forwards, inside the subnet, and free of the three addresses nobody can have |
| Dhcp.ValidatePoolIPv4 | internal/dhcp/validate.go:215-295 | No error exactly when the range is safe on its subnet and gateway, DNS and NTP are acceptable |
| Dhcp.ValidateRange | internal/dhcp/validate.go:215-270 | No error exactly when the range is safe; for a typed range, when its own two ends can be handed out on the subnet |
| Dhcp.TypedRangeIsSafe | internal/dhcp/config.go:196-204 | A typed range is checked as typed: both ends there, strictly inside the subnet, the right way round, without the router |
| Dhcp.TypedRangeIsServed | internal/dhcp/config.go:196-204 | A typed range is handed out as typed, from its first to its last address |
| Dhcp.OtherRanges | internal/dhcp/config.go:196-204 | A range left open is the one suggested for the network; half a range, or none, serves nothing |
| Dhcp.ValidateOverlaps | internal/dhcp/validate.go:336-353 | No error exactly when no two pools' ranges overlap |
| Dhcp.ValidateReservations | internal/dhcp/validate.go:356-415 | No error exactly when MACs are well formed and different, addresses are IPv4, different and on a served subnet |
| Dhcp.OverlapsMean | internal/dhcp/validate.go:336-353 | Ranges that do not overlap mean no address is served by two pools |
| Dhcp.Validate | internal/dhcp/validate.go:117-180 | No error exactly when the configuration is valid, stated on addresses rather than on checks |
| Dhcp.DerivedRangeIsSafe | internal/dhcp/link.go:79-84 | A pool left to derive its range on a subnet with room for hosts never gets a range error |
| Leases.UsageOf | internal/dhcp/leases.go:172-192 | Size of the range, leases inside it, active ones among them; all zero without a range |
| Leases.LeasesCount | internal/dhcp/leases.go:172-192 | Lease by lease: counted if its IPv4 address lies between the ends, active if it never expires or expires later |
| Leases.RangeSizeIsCount | internal/core/subnet.go:142-151 | Equals the number of addresses if and only if the range is not the whole address space |
| Leases.UsageIsBounded | internal/dhcp/leases.go:157-192 | With a safe range and leases on different addresses, active and expired together fit the size, so free is never negative and percent, rounded down, stays in 0 to 100 |
| Leases.CeilingCoversIPv4 | internal/dhcp/render.go:402-415 | For a valid configuration the ceiling is at least the number of different IPv4 addresses in pools and reservations |
| Leases.CeilingIs | internal/dhcp/render.go:402-415 | The ceiling is the number of reservations, of every pool's addresses, and 256 for every stateful pool, and never under 1000 |
| Leases.StatefulBoundHolds | internal/dhcp/render.go:388-415 | For every configuration: the bound claimed for IPv6 holds if and only if the networks of the stateful pools have together no more members than there are such pools, or everything fits the default |
| Leases.StatefulBoundFails | internal/dhcp/render.go:349-415 | A valid configuration that offers more addresses than its ceiling |
| Dropped.ServedBy | internal/dhcp/plan.go:410-446 | A client keeps its address exactly when its own reservation names it, or nobody has a claim and a pool covers it |
| Dropped.DroppedBy | internal/dhcp/plan.go:380-408 | Exactly the active leases that lose out, in order; all active ones when disabled |
| Dropped.DroppedAre | internal/dhcp/plan.go:380-408 | Lease by lease: with the service off every active lease is dropped, with it on an active IPv4 lease whose client does not keep the address |
| Dropped.KeepsUnordered | internal/dhcp/plan.go:410-446 | With different MACs, keeping an address does not depend on list order |
| Dropped.OrderIrrelevant | internal/dhcp/plan.go:380-446 | Reordering pools and reservations drops the same leases |
| Dropped.OrderMattersForRepeatedMacs | internal/dhcp/plan.go:410-446 | With a repeated MAC, which validation refuses, order decides |
| Dropped.SetReservationAdds | internal/dhcp/config.go:489-499 | A reservation for a new MAC is added and nothing else changes, through the sort |
| Dropped.SetReservationReplaces | internal/dhcp/config.go:489-499 | A reservation for a MAC that has one takes its place and moves no other |
| Dropped.SetReservationSorts | internal/dhcp/config.go:402-419 | An addition leaves pools by network and reservations by MAC, and loses none |
| Dropped.SetReservationChanges | internal/dhcp/config.go:489-499 | It newly drops exactly the served clients matching one but not both of MAC and address, and newly serves exactly an unserved one matching both |
| Duration.ParseDuration | internal/dhcp/config.go:302-338 | The loop computes the groups' sum with 64-bit wrap-around, and fails where a number or unit is missing |
| Duration.Print | internal/dhcp/config.go:340-361 | For every duration: nothing below zero, else the largest-first groups and the print of what is left below a second |
| Duration.ReadsGroups | internal/dhcp/config.go:302-361 | Reading a printed list of groups adds up to the time they stand for, with no wrap on the way |
| Duration.RoundTrip | internal/dhcp/config.go:301-361 | A duration of 64 bits is read back from its own print if and only if it is a non-negative whole number of seconds; a fraction of a second makes the text unreadable, a negative duration reads as none |
| Duration.ReadsOne | internal/dhcp/config.go:302-338 | One number and one unit is that many of it in 64 bits; no such unit, or a number past 62 bits, is refused |
| Duration.ReadsSeconds | internal/dhcp/config.go:302-338 | A number alone counts seconds |
| Duration.PrintedIs | internal/dhcp/config.go:340-361 | Weeks, days below a week, hours below a day, minutes and seconds, each only if there is any |
| Render.Canonical | internal/dhcp/render.go:188-200 | The filter in place leaves exactly the trimmed lines that are neither blank nor comment |
| Render.CanonicalIdempotent | internal/dhcp/render.go:188-200 | Filtering twice is filtering once |
| Render.CommentsDoNotCount | internal/dhcp/render.go:188-200 | Comment lines added anywhere change nothing the daemon reads |
| Render.StripInjective | internal/dhcp/render.go:530-533 | Different hardware addresses get different file names |
| Render.RenderedIsSound | internal/dhcp/render.go:204-252 | For a valid configuration the rendered paths are distinct, the observer sees each of them, and each is marked reloadable exactly if it sits in a directory a signal rereads |
| Render.RenderedAre | internal/dhcp/render.go:210-252 | Which files are rendered, if and only if: the main file, one for every pool that has options, one for every reservation, each at its path with its text |
| Render.LinesCount | internal/dhcp/render.go:188-200 | Line by line: blank lines and those that start with a hash after their spaces do not count, the others count without the spaces around them |
| Render.VisibleMeans | internal/dhcp/apply.go:489-519 | Below the rendered directory, at any depth, every file is observed whose own name has no leading dot |
| Render.StripMeans | internal/dhcp/render.go:530-533 | Colons are taken out and nothing else |
| Plan.BuildPlan | internal/dhcp/plan.go:225-305 | The changes are exactly the work every path needs, once and sorted; the action, the boot state and the impact follow from them and the unit |
| Plan.Classify | internal/dhcp/plan.go:332-373 | The result covers every change, the action and dropped clients and is no worse than the worst of them; disruption means dropped clients or a stop |
| Plan.ImpactMeans | internal/dhcp/plan.go:332-373 | The impact of every plan in full: disruptive for dropped clients or a stop; a restart for a start, a restart, or something a signal does not reread; a reload for what a signal rereads; else none |
| Plan.ChangesMean | internal/dhcp/plan.go:239-292 | A path is listed once if and only if its bytes differ; created, updated or deleted accordingly; and its impact is none, a reload or a restart according to what the daemon reads there |
| Plan.EmptyMeansNoDrift | internal/dhcp/plan.go:184-198 | The drift answer is no if and only if the daemon would read the same from disk as from what is rendered, and the unit runs and starts at boot as it should |
| Plan.NoChangesMeansSame | internal/dhcp/plan.go:239-292 | A plan changes nothing on disk if and only if the observed files are the rendered ones |
| Plan.InsignificantMeansAgree | internal/dhcp/plan.go:184-205 | No change counts if and only if the daemon would read the same from either |
| Plan.ActionChosen | internal/dhcp/plan.go:239-329 | For a running service: a restart if and only if something a signal does not reread differs in what the daemon reads, a signal if only rereadable files differ, else nothing |
| Plan.ActionSuffices | internal/dhcp/plan.go:239-329 | Whatever the daemon held: after doing nothing it agrees with the rendered files if and only if it agreed with the disk; after a signal if and only if it did so outside the reread directories; after a restart always |
| Plan.CheapActionIsEnough | internal/dhcp/plan.go:239-329 | If the daemon agreed with the disk, it agrees with the rendered files after the planned action |
| Plan.DearActionIsNeeded | internal/dhcp/plan.go:308-329 | A restart is planned only if a signal would not do, a signal only if nothing would not do |
| Apply.Box.Observe | internal/dhcp/apply.go:130-192 | The files are those on disk the module can see, and the unit facts are false without a manager |
| Apply.Box.WriteChanges | internal/dhcp/apply.go:294-320 | Succeeds if and only if no step fails, and then every planned path holds what was rendered; when a step fails, exactly the paths before it do; a planned file is always found among the rendered ones |
| Apply.Box.DriveUnit | internal/dhcp/apply.go:322-402 | On success the unit and what the daemon has read are what the action says; with no step failing it succeeds if and only if a manager answers, the unit is installed and, for a start, the port is free; those checks come before anything is touched |
| Apply.Box.ApplyChecked | internal/dhcp/apply.go:224-402 | Steps in order with any of them failing: held or failed early changes nothing, what landed is a first part of the plan and stays, the unit is touched only after every file; with no step failing it succeeds if and only if the unit can be driven; success leaves exactly the rendered files and a settled unit, and a daemon that was running agrees with the disk if and only if the action sufficed for what it held; "rendered nothing for it" never happens |
| Apply.PatchedAll | internal/dhcp/apply.go:294-320 | Doing the planned work on any tree leaves exactly the rendered files in view |
| Apply.PlanFacts | internal/dhcp/plan.go:292-329 | Which action and which boot state a plan asks for, for every state of the unit |
| Apply.ReplanFindsNothing | internal/dhcp/apply.go:224-402 | After a successful apply, planning the same configuration finds nothing to do |
| Apply.VisiblePatched | internal/dhcp/apply.go:294-320 | After an interruption the next observation is the old files with part of the work done |
| Apply.InterruptedApply | internal/dhcp/plan.go:239-329 | After an apply that stopped with any part of its work landed, the same apply again restarts, signals or does nothing according to what is left, and the daemon then holds what is on disk if and only if it restarted, or everything that had landed is read as before or is reread by the signal |
| Apply.InterruptedApplyIsForgotten | internal/dhcp/plan.go:239-329 | With every file landed, the next plan does nothing, and the daemon agrees with the disk if and only if the first had nothing significant to do |
| Apply.MidWriteIsNotMended | internal/dhcp/apply.go:294-320 | With the main file landed and a reservation not, the next apply signals and is done, and the daemon keeps the old main file |
| Apply.TwoFilesExist | internal/dhcp/render.go:43-60 | Such a pair of files: the main file sorts first and is not reread, the reservation is |
| Apply.ActivatingIsLeftAlone | internal/dhcp/plan.go:308-311 | A unit coming up is left alone, and agrees afterwards if and only if no change counted |
| MergePatch.MergeValue | internal/core/httpjson.go:150-168 | The loop, in any key order, is the recursive procedure of section 2 of RFC 7386 |
| MergePatch.Members | internal/core/httpjson.go:150-168 | Members the patch does not name are kept, those it names null are gone, the others are merged |
| MergePatch.SilenceKeeps | internal/core/httpjson.go:150-168 | Whatever the patch says nothing about stays as it was, at every depth |
| MergePatch.SayingSets | internal/core/httpjson.go:150-168 | Where the patch has a value that is no object, at any depth, that value is there afterwards, and null means nothing is; where it has an object there is one |
| MergePatch.Idempotent | internal/core/httpjson.go:150-168 | Applying a patch twice is applying it once |
| MergePatch.LeavesNoNulls | internal/core/httpjson.go:150-168 | No null members come out of targets without them, so none in what is built from the patch |
| MergePatch.Reaches | internal/core/httpjson.go:136-168 | Any value without null members can be reached from any other by one patch |
| Groups.ClimbDecides | internal/devices/config.go:363-371 | The climb ends where nothing is above, and is then the whole path, or the walk revisits a group, and then something is above its last name |
| Groups.PathNeverRevisits | internal/devices/validate.go:190-201 | A walk that reaches a top never comes back to where it was |
| Groups.PathIsAbove | internal/devices/config.go:363-371 | Where the walk has an end, the ancestors are all of it |
| GroupEdits.NormalIsCanonical | internal/devices/config.go:193-222 | Normalising trims and sorts, loses nothing, and changes exactly what is not yet in that form |
| GroupEdits.ForestClimbs | internal/devices/validate.go:142-183 | In a valid configuration every group's ancestors are groups and reach the top within four levels |
| GroupEdits.RemovedFinds | internal/devices/config.go:339-356 | After a removal every other group is there once, under its old parent or the removed group's |
| GroupEdits.RemoveShortens | internal/devices/config.go:339-356 | Every remaining ancestor chain is the old chain without the removed name |
| GroupEdits.RemoveKeepsForest | internal/devices/config.go:339-356 | A valid configuration stays valid; every device keeps its place in the list and its chain but for the removed name |
| GroupMoves.RenamedFinds | internal/devices/config.go:306-325 | Every group is found under its new label with its parent relabelled |
| GroupMoves.RenameKeepsForest | internal/devices/config.go:306-325 | Renaming to a free name relabels every group's and device's chain pointwise; the result is valid if and only if the name may be used and no other group has it in another case |
| GroupMoves.MoveInsideItself | internal/devices/validate.go:190-201 | After a move the walk from the group revisits if and only if the new parent is the group or lies below it |
| GroupMoves.MoveRegrafts | internal/devices/config.go:291-298 | Any other move gives the group the new parent's chain, hands it on to everything below, and leaves other chains alone |
| GroupMoves.MoveAllowed | internal/devices/validate.go:158-183 | The moved configuration is valid if and only if the parent exists, is not inside the group, and nothing ends up deeper than four |
| GroupRequests.CreatedValid | internal/devices/http.go:246-251 | A new group can be stored if and only if its trimmed name may be used and no group has it in another case |
| GroupRequests.PlacedValid | internal/devices/http.go:262-266 | On top of a creation or a rename, the result is valid if and only if it was so before the move and the group may move |
| GroupRequests.UpsertedFinds | internal/devices/config.go:291-298 | Setting a group: it is found as given, every other name is found as before, devices stay, and an addition leaves the normal form |
| GroupConfig.Config.Normalize | internal/devices/config.go:193-222 | The loops over the slices compute the normal form |
| GroupConfig.Config.UpsertGroup | internal/devices/config.go:291-298 | Afterwards the group is found as given and every other name as before, also through the sort of an addition |
| GroupConfig.Config.RenameGroup | internal/devices/config.go:306-325 | False and no change without the group; otherwise its name and every reference to it, then the normal form |
| GroupConfig.Config.RemoveGroup | internal/devices/config.go:339-356 | False and no change without the group; otherwise what it held moves to its parent, then the normal form |
| GroupConfig.Config.Ancestors | internal/devices/config.go:363-371 | The climb; it is the whole path to the top if and only if the walk never revisits |
| GroupConfig.Config.InCycle | internal/devices/validate.go:190-201 | True if and only if the parent walk revisits a group, on any configuration |
| GroupConfig.Config.CheckNames | internal/devices/validate.go:143-165 | No error exactly when names may be used and differ by more than case |
| GroupConfig.Config.CheckParents | internal/devices/validate.go:167-183 | No error exactly when parents exist and chains are short; "inside itself" is said of exactly the groups whose walk revisits, "too deep" only with the true depth |
| GroupConfig.Config.Validate | internal/devices/validate.go:68-140 | No error if and only if the groups are a forest of depth at most four and no device names a missing group |
| GroupConfig.ForestChecks | internal/devices/validate.go:142-183 | With different names the separate checks amount to a forest |
| GroupConfig.Service.DeleteGroup | internal/devices/http.go:273-281 | What is stored stays valid and canonical, and a removal is refused only for a group that is not there |
| GroupConfig.Service.PutGroup | internal/devices/http.go:234-271 | What is stored stays valid and canonical; every request, with creation, rename and move in any combination, is accepted if and only if the names are free and the group may move, with the stated result; a refusal changes nothing |
| GroupConfig.Service.Store | internal/devices/http.go:333-344 | An edited copy is stored, in normal form, if and only if that is valid |
| Supervise.AtMostThreeStarts | internal/daemon/supervise.go:73-144 | At every moment of every run a backend has been started at most three times since it was last seen healthy, the attempt count is exactly those starts, and every start directly follows a positive recheck in the same lock hold |
| Supervise.StretchStarts | internal/daemon/supervise.go:73-144 | In any stretch of a run in which a backend is not seen healthy it is started at most three times |
| Supervise.StartsWhenNeeded | internal/daemon/supervise.go:100-144 | A look starts its backend if and only if the poll and the recheck under the lock say so and it has been started fewer than three times since it was last seen healthy |
| Supervise.FailuresCostNothing | internal/daemon/supervise.go:102-126 | Failed reads and abandoned lock waits, however many, leave the attempts as they were |
| Supervise.Watch.RecoverBackend | internal/daemon/supervise.go:152-162 | Attempted exactly when the lock was got and the recheck was positive; what happens in the hold, in order |
| Supervise.Watch.LookAt | internal/daemon/supervise.go:100-144 | One backend's turn changes attempts and trace as the machine's step says |
| Supervise.Watch.Tick | internal/daemon/supervise.go:86-144 | A tick is the turns of all backends in order |

## Left out

- Files, D-Bus, netlink, procfs, HTTP and the command line: a write or removal of a file is one step that succeeds, is refused, or is cut by a crash on either side.
- Directory-sync failures after a rename or a removal (internal/core/file.go:51-59, internal/core/recovery.go:184-190): a removed journal that comes back could end one trial twice, which the model excludes.
- The real rollback body: an action that on success leaves the captured document stored and on failure leaves the store as it was or already equal to it. The per-module appliers it calls are not part of this model.
- `Lock.TryDo`, which runs no guard; and the waiting for the lock and its time limit, which only refuse.
- The legacy per-module files of `loadLegacy`; the redaction and size checks of `ParseBackup`; the validation, dry run and revision checks of a restore, which only refuse before a trial begins.
- Entity tags: a mismatch only refuses.
- JSON lexing, MAC and IP parsing and printing: tokens, normal MAC text and addresses are plain values. Prefix bit operations are arithmetic on powers of two.
- The text of rendered files and messages; `Canonical` joins its lines, the model stops at the list of lines.
- The second sort key of reservations, which matters only for repeated MACs.
- Lease files: `ParseLeases`; leases are given, with IPv6 ones carried as addresses outside every IPv4 range.
- `Search`, `nearMisses` and the ranking in the logo search; `skippedCost`, which is a single scan; `LineDiff`'s collapsing of unchanged runs.
- Schema.RelaxRoot: a node's children are gathered before the first of them is walked, where the code goes keyword by keyword; the walk changes no keyword. Nodes have no other fields than the walk uses.
- MergePatch.MergeValue: builds a new map where the code edits the target's own, so what else might share that map is not captured.
- GroupConfig.Config.Validate: covers the group reference of devices and all of the group checks; MAC, category, name, model, icon and notes of a device are not there, being one-field checks.
- GroupConfig.Config.Normalize: covers the trimming of group references and both sorts; the MAC is in normal form already, and the trimming of a device's own texts is not there.
- GroupConfig.Config.CheckNames: lower case is defined up to U+00FF.
- Dhcp.Validate: covers addresses, ranges, overlaps and reservations; lease times, hostnames, options, extra configuration, router advertisements, IPv6 pool checks and warnings are not there.
- Dhcp.ValidateReservations: does not model the errors about a reservation's hostname and lease time.
- RecoveryRuns.LawfulRollbacks: speaks of reverts. A restore's own forward call of the same action, towards the uploaded document (internal/core/backup.go:212), appears as the save it makes.
- Supervise.Watch.Tick: which backends exist and what their reads answer are arguments; `startIsTheWholeJob` is a three-way conjunction.
- UI, icons, vendor and hostname tables, package installation, tokens and passwords, DNS providers: lookups or I/O with one-branch properties.
