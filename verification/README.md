# Strom: verified models of the agent and controller cores

Strom manages network UPS devices. An *agent* runs on each node beside the NUT daemons: it scans for UPSes, names
them, writes the NUT configuration, and keeps its own binary in two release slots with rollback. A *controller*
adopts nodes, polls them over the NUT protocol, republishes the whole fleet on one aggregate NUT listener, raises
alerts and estimates battery life. This project models those parts in Dafny and proves what they guarantee over all
inputs and all runs.

| files | what they model |
|---|---|
| `ReleaseStore`, `ReleaseRuns` | the release slots, links and records on disk, every call split at each file operation; runs of stagings, boots, confirmations and reports, each cut short by a power failure anywhere, under any clock |
| `Versions`, `ReleaseTags` | the agent's version order and the release tooling that numbers the releases |
| `NutServer`, `NutClient`, `NutWire` | both ends of the NUT wire protocol (section 4 of RFC 9271): session, printer, parser, the poll conversation, and what joins them |
| `Hotplug` | the hotplug debouncer: two goroutines, a trigger channel of capacity one, a resettable timer and an unbuffered output as interleaved steps |
| `UpsNames`, `AgentConfig` | stable UPS names and the configuration files one scan writes |
| `Adoption`, `AdoptionLimits` | one node, any number of controllers that retry, and a network that loses, delays and duplicates; what they agree on, and exactly when adoption or its NUT user is lost |
| `Regression`, `BatteryTrend` | the least-squares battery trend over exact reals |
| `Alerts` | alert evaluation and the debounce against times stored in whole seconds |
| `Basics`, `Text`, `Sorting` | options and results, the string library functions used, and sorting |

Code that changes state step by step is modelled by classes and methods, each proved against a specification function;
the guarantees are then lemmas about those functions. Concurrency, crashes and the network are state machines: a run
is a sequence of actions of which those not possible at the time are skipped, so a statement about every sequence is a
statement about every interleaving.

Assumptions shared by all parts: store operations do not overlap each other, nor do adoption requests; a scan may
overlap an adoption request, as its read of the NUT user and its write of the file are two steps; a rename and
the replacement of a link are one step; the binary in a slot reports that slot's version; JSON, YAML and token hashes
are injective.

## Results that differ from what one might expect

* Where `previous` and `current` were two slots, boots lead back to the former `previous` exactly when a staging stopped
  before it promoted `current` and the slot then current was on trial; every later stop, and a completed staging,
  forfeits that target. Where they were one slot, as after a rollback, or none, boots lead back to it exactly unless the
  new slot is live without a record (`InterruptedStagingForfeitsRollback`).
* A staged version is live without a pending record of its own, so that no boot ever rolls it back, exactly when the
  staging stops between repointing `current` and recording the activation, unless an older activation of the same
  version left its record (`UnguardedStaging`).
* Devices that share a stable key do not keep their names: on a rescan the first of them takes over the name of the
  last, which loses it, and a rescan reports no change exactly when all keys are distinct (`FirstTwinTakesOver`,
  `RescanIsStable`, `RescanReportsChange`).
* After a failed configuration apply the next successful one restarts nothing exactly when `ups.conf` already holds
  what it calls for. With distinct keys and an `ups.conf` that was to change, that is so exactly when the failure came
  after `ups.conf` was replaced: the driver restarts are lost (`FailureHidesRestart`).
* A node can become impossible to adopt. Since every attempt draws a new token, somebody can still get trust exactly
  when the node has no record yet, or some call holds trust, has a usable response to verify, has been accepted, or
  still carries the stored credentials to a readable record (`AdoptableExactly`). A lost answer and a partly written
  record both lead out of that condition (`NodeCanBeOrphaned`, `NodeCanBeBlocked`).
* A controller with trust has its NUT user in `upsd.users` exactly when some action wrote it there and no later one
  wrote another user. The request that stores the first record writes it unless that write fails, a replay never does,
  and every later scan that writes the file puts the record's user there, except a scan that had loaded the local user
  before the record was stored (`TrustHolderHasUser`, `TrustHolderHasUserExactly`, `ScanRestoresUser`,
  `TrustWithoutUser`).
* The alert debounce holds for intervals up to 9223372036 seconds and fails for every longer one, where the
  multiplication overflows (`AlertsAreDebounced`, `OverflowDefeatsDebounce`).
* The next release tag of a train is newer for the agent exactly while its patch number fits the agent's integers,
  of 32 or 64 bits (`NextTagIsNewer`, `PublishedIncrease`).
* A value survives quoting and unquoting exactly when it has no newline (`QuotingRoundTrip`).

## Model

| member | source | states |
|---|---|---|
| `ReleaseStore.Store.StageAndActivate` | agent/internal/updates/store.go:131-183 | a staging is let through if and only if the binary is not empty, the trimmed version is a stable one, and it is newer than the current one, if there is one that parses; which refusal the other cases get, none of which touches the disk; otherwise the disk is what the file operations give, cut where the power fails |
| `ReleaseStore.Store.Activate` | agent/internal/updates/store.go:152-182 | the file operations in order: slot, binary, `previous`, `current`, pending record, pruning |
| `ReleaseStore.Store.PruneReleases` | agent/internal/updates/store.go:265-289 | every slot neither link names is removed in listing order, one file operation at a time |
| `ReleaseStore.Store.ReconcileStartup` | agent/internal/updates/store.go:190-230 | the action and the disk of one boot, for any clock, any point of failure and any record that cannot be read |
| `ReleaseStore.Store.RollbackToPrevious` | agent/internal/updates/store.go:251-263 | `current` becomes what `previous` is, or is removed when there is none |
| `ReleaseStore.Store.ConfirmHealthy` | agent/internal/updates/store.go:237-249 | a confirmation clears a matching pending record and then reports the install, up to the first operation or read that fails |
| `ReleaseRuns.StagedIsNewer` | agent/internal/updates/store.go:143-150 | a staging that is let through is for a version newer than both linked slots, so it never writes into one of them |
| `ReleaseRuns.PruneKeeps` | agent/internal/updates/store.go:265-289 | pruning stopped anywhere leaves links, records and every kept slot as they were |
| `ReleaseRuns.PruneDrops` | agent/internal/updates/store.go:280-287 | pruning that runs to the end drops exactly the listed slots it does not keep |
| `ReleaseRuns.DroppingOne` | agent/internal/updates/store.go:280-287 | a slot is dropped in two steps, the binary first; what is left when the power fails between them |
| `ReleaseRuns.StageKeeps` | agent/internal/updates/store.go:152-182 | staging stopped anywhere keeps the links sound and the linked slots byte for byte; completed, the new slot is current, the former one previous, no third slot is left and the activation is pending |
| `ReleaseRuns.ReconcilePlays` | agent/internal/updates/store.go:190-230 | for each outcome of a boot and each point of failure, the links and the pending record it leaves |
| `ReleaseRuns.ReachableIsSound` | agent/internal/updates/store.go:131-289 | in every reachable state each link is absent or names a slot with a complete binary, `previous` is not newer than `current`, and no `current` means no `previous` |
| `ReleaseRuns.StagingSparesLinkedSlots` | agent/internal/updates/store.go:152-173 | from every reachable state, the slots the links name keep their bytes through a staging that stops anywhere |
| `ReleaseRuns.FailedActivationRollsBack` | agent/internal/updates/store.go:190-230 | after a staging, with no confirmation, over any boots cut anywhere under any clock: at most three boots await health; the fourth completed boot, or one completed over three minutes late, leaves the former slot current with the same bytes and nothing pending; a reported rollback is permanent |
| `ReleaseRuns.TrialBoot` | agent/internal/updates/store.go:205-230 | a boot rolls back if and only if its version is on trial and three boots have awaited health or more than three minutes have passed; it awaits health if and only if it is on trial and neither is so |
| `ReleaseRuns.PromptBoots` | agent/internal/updates/store.go:205-230 | completed boots within three minutes: the first three await health on the new slot, the fourth rolls back |
| `ReleaseRuns.BootRecords` | agent/internal/updates/store.go:215-226 | what a completed boot leaves in the status: after a rollback its time and reason, else what was there |
| `ReleaseRuns.UnreadableAtBoot` | agent/internal/updates/store.go:190-226 | a boot does nothing without a readable pending record; without a readable status it still rolls back but reports nothing |
| `ReleaseRuns.ConfirmedStays` | agent/internal/updates/store.go:237-249 | after a completed confirmation no later boot changes the disk |
| `ReleaseRuns.ConfirmRecords` | agent/internal/updates/store.go:237-249 | a completed confirmation of the pending version leaves the time of the install, no error and no offer of that version; of another version, the disk as it was |
| `ReleaseRuns.UnreadableAtConfirmation` | agent/internal/updates/store.go:237-249 | a confirmation does nothing without a readable pending record; without a readable status it clears the record but reports nothing |
| `ReleaseRuns.StageLinks` | agent/internal/updates/store.go:152-177 | both links and the pending record after a staging, by the number of completed file operations, first stagings included |
| `ReleaseRuns.SlotBeingWritten` | agent/internal/updates/store.go:152-160 | a staging stopped before the links leaves all but the new slot as it was; that one keeps what it held or starts empty, and then has the binary |
| `ReleaseRuns.InterruptedStagingForfeitsRollback` | agent/internal/updates/store.go:152-182 | from every sound disk: some boots lead back to the former previous slot if and only if the staging stopped before its third operation with the current slot on trial, or, where both links named one slot or none, unless the new slot is live without a record |
| `ReleaseRuns.UnguardedStaging` | agent/internal/updates/store.go:171-177 | the staged version is current without its own pending record, and current after any boots, if and only if the staging stops between repointing `current` and the record, unless an older record of the same version is there |
| `Versions.CompareIsTotalOrder` | agent/internal/updates/version.go:50-70 | the comparison is a total order |
| `Versions.CompareIsLexicographic` | agent/internal/updates/version.go:50-70 | a version is newer by its major number, then the minor, then the patch |
| `Versions.NumeralsParse` | agent/internal/updates/version.go:23-41 | v and any three numerals parse to exactly their numbers, unless one is too large |
| `Versions.OnlyNumeralsParse` | agent/internal/updates/version.go:23-41 | nothing else is a stable version |
| `ReleaseTags.ComputeNextVersion` | tools/versioning.py:88-116 | the loop over the tags computes the printed next tag |
| `ReleaseTags.TagRoundTrip` | tools/versioning.py:79-116 | every printed tag parses back to the numbers it was printed from |
| `ReleaseTags.TagTextsParse` | tools/versioning.py:79-86 | v, three numerals with dots between them and perhaps `-rc` and a fourth: every such text is a tag of just its numbers, whatever white space stands around it |
| `ReleaseTags.OnlyTagTextsParse` | tools/versioning.py:79-86 | no other text is a tag |
| `ReleaseTags.AgentReadsTag` | agent/internal/updates/version.go:23-41 | the agent, of either integer width, reads exactly the stable tags whose numbers fit its integers, and no candidate |
| `ReleaseTags.ToolReadsAgentVersion` | tools/versioning.py:79-86 | whatever the agent can compare, the tooling reads as the same stable tag |
| `ReleaseTags.NextTagIsNew` | tools/versioning.py:88-116 | the next tag is not among the existing ones, nor are its numbers |
| `ReleaseTags.PatchFollows` | tools/versioning.py:97-116 | the first release of a train is patch 0, each other one follows the highest patch released |
| `ReleaseTags.CandidateFollows` | tools/versioning.py:97-116 | a candidate is for the next patch; the first is rc1, each other one follows the highest candidate of that patch |
| `ReleaseTags.NextTagIsNewer` | agent/internal/updates/version.go:76-86 | the agent, of either integer width, takes the next stable tag for newer than any of its train if and only if the patch number fits |
| `ReleaseTags.PublishedPatches` | tools/versioning.py:88-116 | releases published one after another number the patches without a gap |
| `ReleaseTags.PublishedIncrease` | agent/internal/updates/version.go:76-86 | a later release of a train is newer for the agent, of either integer width, if and only if its number fits |
| `NutServer.NutSession.HandleCommand` | controller/internal/aggregatenut/manager.go:226-262 | one command: reply, new session state and whether the connection stays open |
| `NutServer.AskBackend` | controller/internal/aggregatenut/manager.go:259-410 | an authenticated command gets one error line if and only if it cannot be answered; else LIST gets a block of exactly the entries asked for, GET one line, INSTCMD the line OK |
| `NutServer.List` | controller/internal/aggregatenut/manager.go:265-339 | one error line if and only if target, arguments, UPS or commands are missing; else a BEGIN and END pair around exactly the inventory's UPSes, the UPS's variables or its commands |
| `NutServer.ListAnswers` | controller/internal/aggregatenut/manager.go:265-339 | the same of every LIST reply, as a lemma |
| `NutServer.PrintCmdList` | controller/internal/aggregatenut/manager.go:329-335 | the lines of LIST CMD, sorted by name |
| `NutServer.Get` | controller/internal/aggregatenut/manager.go:340-387 | one line; an error if and only if the UPS, the variable or the command is not there |
| `NutServer.InstCmd` | controller/internal/aggregatenut/manager.go:388-406 | OK if and only if the UPS exists and the command ran, and one error line otherwise |
| `NutServer.PrintUPSList` | controller/internal/aggregatenut/manager.go:279-287 | the lines of LIST UPS, sorted by name |
| `NutServer.PrintVarList` | controller/internal/aggregatenut/manager.go:299-310 | the lines of LIST VAR, sorted by key |
| `NutServer.Connection.Write` | controller/internal/aggregatenut/manager.go:187-219 | the read loop: every complete line is answered until the listener hangs up |
| `NutServer.HandleConn` | controller/internal/aggregatenut/manager.go:187-219 | everything a new connection prints for a given input |
| `NutServer.RejectedPeerLearnsNothing` | controller/internal/aggregatenut/manager.go:226-262 | a peer that never logs in, on any listener, has the same conversation whatever fleet stands behind it |
| `NutServer.ClosedListenerTellsNothing` | controller/internal/aggregatenut/manager.go:187-262 | on a listener whose authenticator accepts nobody, everything a new connection prints is the same whatever the fleet |
| `NutServer.NewSessionDenies` | controller/internal/aggregatenut/manager.go:226-258 | a new connection is denied everything, a password too, until it gives a user name |
| `NutServer.LogsInExactly` | controller/internal/aggregatenut/manager.go:235-253 | a line logs a session in if and only if it completes a pair of credentials the listener accepts |
| `NutServer.SessionAfter` | controller/internal/aggregatenut/manager.go:226-262 | the connection ends if and only if the command is QUIT or LOGOUT; what becomes of the user name; what logs a session out; and that without a login the fleet does not answer |
| `NutServer.MissingUPSReplies` | controller/internal/aggregatenut/manager.go:288-406 | the error line every command about a UPS gets for an unknown UPS, and for an inventory that cannot be had |
| `NutServer.RefusalLines` | controller/internal/aggregatenut/manager.go:259-410 | the error line for too few words, an unknown command or target, a command that fails, and a missing fleet |
| `NutServer.MissingCommandReplies` | controller/internal/aggregatenut/manager.go:317-377 | the error line of LIST CMD and GET CMDDESC when the UPS's commands cannot be had |
| `NutServer.AbsentReplies` | controller/internal/aggregatenut/manager.go:346-384 | GET is refused with the line for variables if and only if the UPS lacks the variable, and with the one for commands if and only if it lacks the command |
| `NutServer.FindCommandFinds` | controller/internal/aggregatenut/manager.go:378-384 | the command found is the first of the name asked for, and none is found if and only if there is none |
| `NutClient.SendCommand` | controller/internal/nutpoll/nutpoll.go:191-207 | one command, one line read, success exactly for a reply that starts with OK |
| `NutClient.ListUPSes` | controller/internal/nutpoll/nutpoll.go:209-241 | the loop parses a LIST UPS reply and leaves the rest of the stream unread |
| `NutClient.ListVariables` | controller/internal/nutpoll/nutpoll.go:243-278 | the loop parses a LIST VAR reply and leaves the rest of the stream unread |
| `NutClient.BadReplyFails` | controller/internal/nutpoll/nutpoll.go:216-277 | a reply that is cut off, or that holds a line of another kind, is an error and no shorter list |
| `NutClient.EntryIsRead` | controller/internal/nutpoll/nutpoll.go:224-238 | an entry adds its name with or without a description, one without a name is an error, and the END line ends the list |
| `NutClient.TrimQuotesMeans` | controller/internal/nutpoll/nutpoll.go:267-270 | what is not a quoted text loses the quotes at its ends, all of them, and nothing else |
| `NutClient.Poll` | controller/internal/nutpoll/nutpoll.go:34-77 | the whole conversation, with each way it can fail; what a successful one returns is `NutWire.PollReturnsFleet` |
| `NutWire.QuotingRoundTrip` | controller/internal/aggregatenut/manager.go:444-448 | unquoting undoes the two-pass escaping if and only if the value has no newline |
| `NutWire.UPSListDelimited` | controller/internal/nutpoll/nutpoll.go:209-241 | the parser consumes exactly the printed LIST UPS reply, whatever follows, and gets the sorted names |
| `NutWire.VarListDelimited` | controller/internal/nutpoll/nutpoll.go:243-278 | the parser consumes exactly the printed LIST VAR reply, whatever follows, and gets the same variable map |
| `NutWire.GetAgreesWithList` | controller/internal/aggregatenut/manager.go:288-364 | GET VAR prints one of the lines of LIST VAR, and the line unquotes to exactly the variable's value |
| `NutWire.GetDescribesCommand` | controller/internal/aggregatenut/manager.go:360-384 | GET CMDDESC prints the description of the command of that name, or its name where it has none, so that it unquotes again |
| `NutWire.UPSLineDescribes` | controller/internal/aggregatenut/manager.go:279-287 | a line of LIST UPS splits into the name and the description, or the name again where there is none, and unquotes to it |
| `NutWire.QuitEnds` | controller/internal/aggregatenut/manager.go:205-234 | QUIT is answered and ends the conversation; what follows is never read |
| `NutWire.LoginAnswered` | controller/internal/aggregatenut/manager.go:235-257 | logging in succeeds if and only if the first words of user name and password are accepted |
| `NutWire.PollReturnsFleet` | controller/internal/nutpoll/nutpoll.go:53-77 | a poll of the listener with accepted credentials returns one snapshot a UPS; the i-th has the name and exactly the variables of the i-th UPS in name order, and its driver is the first of the three driver variables that is not blank, trimmed |
| `NutWire.PollRejected` | controller/internal/nutpoll/nutpoll.go:53-62 | with rejected credentials no poll succeeds |
| `Hotplug.Watch` | agent/internal/hotplug/watcher.go:59-165 | on every schedule: events are the interval asked for after their trigger and after each other, and once the output closes without cancellation every relevant message has a later event |
| `Hotplug.Watcher.Execute` | agent/internal/hotplug/watcher.go:74-165 | both goroutines, interleaved as a schedule says: the state after the loop is the machine's after that schedule |
| `Hotplug.Watcher.RunReadLoop` | agent/internal/hotplug/watcher.go:133-165 | one step of the read loop, as Execute takes it |
| `Hotplug.Watcher.SendOrAbandon` | agent/internal/hotplug/watcher.go:78-129 | one send of the debounce loop, or the end of its context, as Execute takes it |
| `Hotplug.Watcher.RunDebounceLoop` | agent/internal/hotplug/watcher.go:86-129 | one turn of the main select, as Execute takes it: trigger, closed channel or timer |
| `Hotplug.OwedMeans` | agent/internal/hotplug/watcher.go:86-129 | an event is owed if and only if some relevant message has no event after it |
| `Hotplug.NoEventLost` | agent/internal/hotplug/watcher.go:74-165 | in every interleaving an owed event is held, buffered or timed; when the output closes without cancellation every relevant message has a later event |
| `Hotplug.SyntheticComesFirst` | agent/internal/hotplug/watcher.go:78-82 | an event is synthetic if and only if it is the first |
| `Hotplug.EventsAreBounded` | agent/internal/hotplug/watcher.go:86-129 | later events are no more numerous than triggers, and these than relevant messages |
| `Hotplug.EventsAreDebounced` | agent/internal/hotplug/watcher.go:37-122 | each later event comes at least the interval asked for, or three seconds, after the last trigger before it and after every earlier event |
| `Hotplug.TimerIsDue` | agent/internal/hotplug/watcher.go:97-122 | the timer can fire if and only if the interval asked for, or three seconds, has passed since the last trigger taken |
| `Hotplug.LoopWindsDown` | agent/internal/hotplug/watcher.go:91-126 | with the reader gone the loop is never stuck, given a consumer and time |
| `Hotplug.LoopEndsInEight` | agent/internal/hotplug/watcher.go:91-126 | on every schedule the loop takes at most eight steps once the reader is gone |
| `Hotplug.CancellationEnds` | agent/internal/hotplug/watcher.go:78-129 | at any time cancelling lets the loop stop for good: from then on no trigger is taken and no event comes |
| `UpsNames.CandidatesDistinct` | agent/internal/nutconf/render.go:230-236 | no candidate name is tried twice |
| `UpsNames.CandidateFits` | agent/internal/nutconf/render.go:246-267 | candidates start with `ups-`; the k-th fits 20 characters if and only if k < 10^15 |
| `UpsNames.TriedAreUsed` | agent/internal/nutconf/render.go:230-236 | n taken candidates need n used names: the bound of the search |
| `UpsNames.NextAvailableUPSName` | agent/internal/nutconf/render.go:227-238 | the search ends within the number of used names plus one candidates, with the first unused one |
| `UpsNames.FreeNameFits` | agent/internal/nutconf/render.go:227-267 | the name found is unused, starts with `ups-`, and fits the limit while fewer than 10^15 - 1 names are used |
| `UpsNames.AssignStableNames` | agent/internal/nutconf/render.go:25-50 | the loop gives the named devices and the map for the next scan |
| `UpsNames.NamesAreDistinct` | agent/internal/nutconf/render.go:32-47 | every device list gets non-empty, pairwise distinct names, whatever was persisted |
| `UpsNames.KeepsName` | agent/internal/nutconf/render.go:35-41 | a device keeps its persisted name if and only if no device before it has taken that name |
| `UpsNames.NamingIsStable` | agent/internal/nutconf/render.go:25-50 | after a scan with distinct keys, any reordering or subset of the devices gets the same names from the saved map |
| `UpsNames.FirstTwinTakesOver` | agent/internal/nutconf/render.go:43-46 | where two devices share a key, a rescan gives the first the last one's name, and the saved map changes |
| `UpsNames.RescanIsStable` | agent/internal/nutconf/render.go:25-50 | a rescan of the same list keeps names and map if and only if all keys are distinct |
| `UpsNames.SameDeviceMeans` | agent/internal/nutconf/scanner.go:29-35 | two devices have one key if and only if their serial numbers agree but for case or, when neither has one, bus, vendor and product do |
| `UpsNames.NormalizeKeeps` | agent/internal/nutconf/render.go:240-256 | a source of letters and digits gives `ups-` and its first 16 characters in lower case, an empty one `ups-device` |
| `UpsNames.NormalizeDrops` | agent/internal/nutconf/render.go:246-249 | any other character counts for nothing; with the row above this settles the name of every source |
| `UpsNames.CandidateForm` | agent/internal/nutconf/render.go:227-267 | the k-th candidate is the base and `-k`, the base cut just as far as the limit needs and never into `ups-` |
| `UpsNames.NamedAfterItself` | agent/internal/nutconf/render.go:32-47 | a device without a persisted name gets the first free candidate of its serial number or, without one, of its bus, vendor and product; the plain one if it is free |
| `AgentConfig.RenderUPSConf` | agent/internal/nutconf/render.go:100-141 | the rendering loop prints the sections in name order, an empty line between each two; what they say is `AgentConfig.UPSConfConfigures` |
| `AgentConfig.UPSConfListsDevices` | agent/internal/nutconf/render.go:100-141 | read back, the sections are the device names, each once and in order: the list a restart names |
| `AgentConfig.UPSConfConfigures` | agent/internal/nutconf/render.go:100-141 | read back section by section, each gives under its key the driver, the port and the description of the device whose name heads it, and no description if and only if it is blank |
| `AgentConfig.UPSDUsersReadBack` | agent/internal/nutconf/render.go:151-163 | read back, `upsd.users` has one section, with the user's name and password and all rights |
| `AgentConfig.RestartUnitsForUPSChange` | agent/cmd/agent/main.go:959-978 | the sorted set of device names when `ups.conf` changed, nothing otherwise |
| `AgentConfig.AgentRuntime.WriteIfChanged` | agent/internal/nutconf/render.go:165-218 | a file is replaced only if it differs, with every way the write can fail |
| `AgentConfig.AgentRuntime.ApplyScan` | agent/cmd/agent/main.go:873-920 | the files and the report of one apply, up to the first failure |
| `AgentConfig.AppliedContents` | agent/cmd/agent/main.go:873-920 | the content of each of the five files after a successful apply, and the devices and the user it reports |
| `AgentConfig.AppliesExactly` | agent/cmd/agent/main.go:873-911 | an apply succeeds if and only if user and name map can be loaded and each file that differs can be written; without user or map no file changes |
| `AgentConfig.FailsAtTheFirst` | agent/cmd/agent/main.go:885-911 | the writes fail if and only if a needed one cannot be done, and then at the first such |
| `AgentConfig.LoadRuntimeNUTUser` | agent/cmd/agent/main.go:922-957 | the user is the adoption record's, the local one only without a record, and never one without name or password |
| `AgentConfig.LoadNameMap` | agent/internal/nutconf/render.go:52-79 | the saved map; an empty one exactly without a file or for an empty file; else an error |
| `AgentConfig.WritesTakeEffect` | agent/cmd/agent/main.go:883-911 | a full round of writes installs every content, touches no other file, and counts exactly the paths that differ |
| `AgentConfig.ReportIsExact` | agent/cmd/agent/main.go:883-919 | a successful apply reports a change if and only if some file changed, and restarts every driver if and only if `ups.conf` did |
| `AgentConfig.ConfigFixedPoint` | agent/cmd/agent/main.go:873-920 | a second apply of the same devices in any order writes nothing, cannot fail, reports no change and restarts nothing |
| `AgentConfig.RescanReportsChange` | agent/cmd/agent/main.go:873-920 | a second apply of one scan reports no change if and only if no two devices share a key |
| `AgentConfig.AppliedRestarts` | agent/cmd/agent/main.go:890-919 | a successful apply restarts nothing if and only if `ups.conf` held what it called for already |
| `AgentConfig.FailureHidesRestart` | agent/cmd/agent/main.go:890-919 | for every scan, what the retry after a failed apply restarts; with distinct keys nothing if and only if `ups.conf` had been replaced |
| `AgentConfig.ApplyWritesUser` | agent/cmd/agent/main.go:873-911 | the only user an apply writes into `upsd.users` is the one it loaded, and a successful apply leaves it there |
| `Adoption.RuntimeAdopter.Apply` | agent/nodeapi/adoption.go:62-153 | fresh, replayed and conflicting requests, with each point at which one can fail |
| `Adoption.RuntimeAdopter.WriteAdoptionState` | agent/nodeapi/adoption.go:167-173 | a write that fails leaves the old file or a garbled one |
| `Adoption.AdoptNode` | controller/cmd/controller/main.go:2142-2196 | at most three attempts, a next one if and only if the last met a passing trouble; trust if and only if the last attempt is accepted with port and fingerprint, the token is not empty, and the pinned health request and the save succeed; its fields and each failure |
| `Adoption.CallFollowsAttempts` | controller/cmd/controller/main.go:2142-2196 | a call of the network model gets exactly as far as adoptNode does on the same outcomes, to the same response or the same failure |
| `Adoption.RetriesPassing` | controller/cmd/controller/main.go:2150-2190 | another attempt follows if and only if fewer than three were made, the trouble is one that passes and the wait ends in time |
| `Adoption.TrustIsVerified` | controller/cmd/controller/main.go:2194-2225 | on every run a call that comes to trust has verified a usable response and found the node healthy; no failed health request leads to trust |
| `Adoption.ServeKeepsRecord` | agent/nodeapi/adoption.go:62-153 | an accepted response reports the record as stored; a stored record is only ever extended or garbled |
| `Adoption.AcceptsExactlyReplays` | agent/nodeapi/adoption.go:64-105 | under all circumstances a node with a record accepts exactly the valid replays nothing goes wrong with, fills in missing TLS data and answers with it, and refuses every rival with 409 |
| `Adoption.FreshAdoption` | agent/nodeapi/adoption.go:107-153 | under all circumstances a node without a record accepts exactly the valid requests nothing goes wrong with, and stores and announces just their credentials |
| `Adoption.AdoptionAgreement` | controller/cmd/controller/main.go:2120-2225 | on every schedule each controller with trust holds exactly the stored credentials and TLS data, so all of them agree |
| `Adoption.StoredNeverChanges` | agent/nodeapi/adoption.go:62-153 | stored credentials never change on any longer run; once the record is garbled the node accepts nothing any more |
| `AdoptionLimits.AdoptableExactly` | controller/cmd/controller/main.go:2120-2225 | in every safe state, so in every reachable one, some schedule with new tokens gives somebody trust if and only if the node has no record, or a call has trust, a usable response, an accepted answer, or the stored credentials for a readable record |
| `AdoptionLimits.OrphanStaysOrphan` | controller/cmd/controller/main.go:2120-2137 | once the calls with the stored token have failed, no schedule with new tokens gives anybody trust |
| `AdoptionLimits.NodeCanBeOrphaned` | controller/cmd/controller/main.go:2150-2160 | a schedule that leads there, for every valid request |
| `AdoptionLimits.NodeCanBeBlocked` | agent/nodeapi/adoption.go:125-127 | a partly written first record leaves the node with no record and not adoptable, even by the call still under way |
| `AdoptionLimits.UsersWrittenOnce` | agent/nodeapi/adoption.go:125-132 | `upsd.users` is written if and only if the request stores the first record and that write succeeds |
| `AdoptionLimits.RequestsLeaveUsersAlone` | agent/nodeapi/adoption.go:69-103 | once the node has a record no request writes `upsd.users`, replays included |
| `AdoptionLimits.StepWritesUsers` | agent/cmd/agent/main.go:873-911 | which action writes `upsd.users`, and whose user: the storing request its own, a scan the one it loaded |
| `AdoptionLimits.LastWriteWins` | agent/cmd/agent/main.go:873-911 | a user is in `upsd.users` if and only if some action of the run wrote it and none after that another one |
| `AdoptionLimits.LaterWrites` | agent/cmd/agent/main.go:939-957 | from the first record on every write is of the record's user, unless the scan had loaded the local one before |
| `AdoptionLimits.TrustHolderHasUser` | agent/nodeapi/adoption.go:69-132 | on every run, when a controller with trust has its NUT user in `upsd.users`: if and only if the last write is of that user, where the storing request writes it unless the write fails and later scans do unless under way before |
| `AdoptionLimits.TrustHolderHasUserExactly` | agent/nodeapi/adoption.go:69-132 | with no scan under way at the first record: if and only if the storing request wrote it, a later scan wrote the file, or the same user was there before |
| `AdoptionLimits.ScanRestoresUser` | agent/cmd/agent/main.go:939-957 | a scan puts the record's user into the file whenever the record can be read |
| `AdoptionLimits.TrustWithoutUser` | agent/nodeapi/adoption.go:69-132 | for every valid request, a schedule on which it has not |
| `Regression.Accumulate` | controller/cmd/controller/main.go:1956-1967 | the loop computes the four running sums |
| `Regression.DenominatorIsPositive` | controller/cmd/controller/main.go:1968-1972 | two or more distinct times make the denominator strictly positive |
| `Regression.NumeratorSign` | controller/cmd/controller/main.go:1973 | Chebyshev's sum inequality: values that never rise give a numerator of at most zero, and of zero only when all are equal |
| `Regression.NormalEquations` | controller/cmd/controller/main.go:1968-1973 | slope and intercept solve the normal equations |
| `Regression.SlopeIsLeastSquares` | controller/cmd/controller/main.go:1968-1973 | over two or more increasing times the slope from the running sums belongs to the unique line of least squared distance |
| `Regression.SlopeOfALine` | controller/cmd/controller/main.go:1968-1973 | on data a + b x the slope is b |
| `Regression.SlopeNeverRises` | controller/cmd/controller/main.go:1968-1973 | runtimes that never rise give a slope of at most zero, and of zero if and only if they are all equal |
| `BatteryTrend.SnapshotHoldsLast` | controller/cmd/controller/main.go:1903-1926 | each field of a second's snapshot holds the valid value that comes last in the list among that second's; the query lists the newest first |
| `BatteryTrend.SnapshotLacksUnrecorded` | controller/cmd/controller/main.go:1903-1926 | a field without a valid value in the second stays unset |
| `BatteryTrend.SnapshotPerSecond` | controller/cmd/controller/main.go:1903-1910 | a second has a snapshot if and only if it has a sample |
| `BatteryTrend.CollectSnapshots` | controller/cmd/controller/main.go:1903-1926 | the loop over the history builds the snapshots |
| `BatteryTrend.CollectPoints` | controller/cmd/controller/main.go:1928-1946 | in whatever order the map is visited, the points are the eligible snapshots' in the order of time |
| `BatteryTrend.PointsExactly` | controller/cmd/controller/main.go:1903-1939 | the points are exactly those some second makes: its last positive runtime, when its last charge is 85 or more and its last status neither on battery nor discharging |
| `BatteryTrend.HistoryIsUnique` | controller/cmd/controller/main.go:1944-1946 | the sorted points do not depend on the order of the visit |
| `BatteryTrend.BuildBatteryRuntimeTrend` | controller/cmd/controller/main.go:1894-1998 | the trend is that of the history's points |
| `BatteryTrend.TrendFromThreePoints` | controller/cmd/controller/main.go:1940-1974 | there is a trend if and only if there are three points, so the zero-denominator exit is never taken, and its slope is the least-squares slope |
| `BatteryTrend.TrendReports` | controller/cmd/controller/main.go:1954-1997 | latest runtime and time, number of points and the line in days; a replacement date if and only if the latest runtime is at the threshold or the line reaches it within 3650 days at more than a hundredth of a second a day, and then the nanosecond of it |
| `BatteryTrend.TrendNeverRises` | controller/cmd/controller/main.go:1968-1974 | runtimes that never rise give a trend of at most zero |
| `BatteryTrend.ReplacementEstimate` | controller/cmd/controller/main.go:1985-1997 | the estimate is when the line through the latest point meets the threshold, never in the past and within int64; the test for a non-positive number of days never succeeds |
| `BatteryTrend.ThresholdIsSevenTenths` | controller/cmd/controller/main.go:1948-1976 | the threshold is seven tenths, rounded down, of the highest runtime |
| `Alerts.LastAboutIsLatest` | controller/internal/registry/registry.go:838-854 | the last event of a rule and subject is the one of the latest time, and of those the last inserted |
| `Alerts.Engine.LastAlertEvent` | controller/internal/registry/registry.go:838-854 | the lookup returns that event |
| `Alerts.Engine.MaybeFireEvent` | controller/internal/alerts/alerts.go:141-158 | an event is delivered, then stored, unless the lookup fails or the last one is too recent |
| `Alerts.Engine.DueEvents` | controller/internal/alerts/alerts.go:104-132 | the events one rule finds due on one node |
| `Alerts.DueExactly` | controller/internal/alerts/alerts.go:104-132 | they are about exactly the subjects to which the condition applies: not seen for longer than allowed, degraded or offline communication, OB in the status in either case, a charge at the threshold or below |
| `Alerts.DueForThisRule` | controller/internal/alerts/alerts.go:104-132 | each event names its rule, node, kind and time, and the UPS when it is about one |
| `Alerts.OneEventPerSubject` | controller/internal/alerts/alerts.go:102-132 | a rule raises at most one event about a subject, as stored, in one evaluation of nodes with distinct, tight ids without a colon and distinct, tight UPS names |
| `Alerts.Engine.EvaluateOnce` | controller/internal/alerts/alerts.go:78-139 | the nested loops offer every due event of every enabled rule in order |
| `Alerts.OnlyDueAlerts` | controller/internal/alerts/alerts.go:78-139 | an evaluation, whatever fails, keeps all it finds and delivers only what an enabled rule finds due on some node at its time; 45 seconds unless configured |
| `Alerts.EveryDueAlert` | controller/internal/alerts/alerts.go:78-139 | after an evaluation without faults every subject an enabled rule finds due has a stored event within the interval |
| `Alerts.Engine.TestRule` | controller/internal/alerts/alerts.go:160-176 | a test delivers and stores without a debounce |
| `Alerts.DebounceIsExact` | controller/internal/alerts/alerts.go:142-146 | an event passes if and only if it comes at least the interval after every stored event about its subject |
| `Alerts.FireExactly` | controller/internal/alerts/alerts.go:141-158 | an event is delivered if and only if the lookup works and no stored event about its subject is within the interval; then its row is stored unless that fails; else nothing happens |
| `Alerts.TestDelivers` | controller/internal/alerts/alerts.go:160-176 | a test is delivered and stored as an event about the test node, whatever is stored already |
| `Alerts.AlertsAreDebounced` | controller/internal/alerts/alerts.go:141-158 | over every run under any clock, stored times are strictly increasing and at least the interval apart, and each delivery comes more than the interval less one second after each earlier stored one |
| `Alerts.OverflowDefeatsDebounce` | controller/internal/alerts/alerts.go:144 | for every interval above 9223372036 seconds a run whose stored times are closer than the interval |
| `Alerts.UnstoredAlertRepeats` | controller/internal/alerts/alerts.go:147-157 | remark: a delivery whose event is not stored does not hold back the next |

## Left out

- HTTP handlers other than adoption, templates, browser code, mDNS, MQTT, systemctl and SSH calls, and SQL beyond the two alert-event functions: plumbing around the cores.
- The aggregate listener's life cycle (Apply, start, stop) and its read deadline: they depend on sockets; only the session is modelled.
- TLS, archives, release manifests and their signatures: opaque checks in front of the store. Token hashes, JSON and YAML count as injective; the content hash of WriteIfChanged is content equality.
- Overlapping store operations and overlapping adoption requests: the code takes no lock, so serial calls are an assumption here.
- Whether the previous slot was ever confirmed healthy: a staging does not look at the pending record, and one cut off between the links and the record leaves the new slot without a pending record.
- `ReleaseStore.Store.StageAndActivate`: link targets are slot names, so a link edited by hand to point outside the releases directory is not represented; temporary files of the atomic writes are not either.
- The order in which the agent starts, polls its health endpoint and confirms: in a run a confirmation may come at any time for any version.
- `ReleaseTags.ComputeNextVersion`: white space is that of the Go library, without the four separator characters Python also strips, and digits are ASCII.
- `NutClient.ListVariables`: the hexadecimal, octal and Unicode escapes and the back-quoted and single-quoted forms of strconv.Unquote; the printer never emits them.
- `NutWire.QuotingRoundTrip`: strings are sequences of characters; a byte string that is not valid UTF-8 comes back with replacement characters.
- `NutServer.NutSession.HandleCommand`: upper-casing is that of ASCII letters; what the fleet answers is a parameter that stays the same during one conversation.
- `Hotplug.Watcher.Execute`: a goroutine's blocking and the choice a select makes are the schedule's; each action is atomic.
- `Hotplug.Watcher.RunReadLoop`: whether a message is relevant is a parameter; parsing it is not part of this model.
- `Hotplug.Watcher.RunDebounceLoop`: stopping, draining and resetting the timer is one step; the clock of the timer never runs backwards.
- `UpsNames.NextAvailableUPSName`: letters and digits are ASCII; a non-ASCII digit in a serial number, or a character that lower-cases to an ASCII letter, is dropped.
- `AgentConfig.RenderUPSConf`: devices that sort under one name would come in an unspecified order; named devices never do.
- `AgentConfig.AgentRuntime.ApplyScan`: directories, permissions and ownership count only as ways for a write to fail; the service reload that follows is not part of this model.
- `Adoption.AdoptNode`: the texts of error messages; address, sealing of secrets and the steps after the trust is saved, whose failure does not undo it.
- `AdoptionLimits.RequestsLeaveUsersAlone`: says nothing of runs with a scan that writes; `upsd.users` does not stay as first written there.
- Resetting a node and removing its adoption by hand.
- `BatteryTrend.BuildBatteryRuntimeTrend`: rounding of floating-point arithmetic; parsing of numbers; the query that limits the history to 45 days and 5000 samples.
- `Alerts.Engine.EvaluateOnce`: failing queries for rules and nodes end the call before anything happens; messages and delivery errors are not recorded.
- `Alerts.AlertsAreDebounced`: leaves out a rule's test subject, whose events are stored without a debounce, and times whose year does not have four digits, for which the order of the stored texts is not the order of time; deleting a rule, which detaches its events, is not an action of a run.
- `Alerts.DebounceIsExact`: intervals below -9223372036 seconds, whose product overflows like that of the long ones.
