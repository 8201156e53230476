# Verified model of Omnibattery's scheduling, metering and migration logic

This Dafny project models the parts of the Omnibattery integration whose
correctness depends on a whole run rather than on one function, and proves what
those runs keep. `dafny verify dfyconfig.toml` checks all of it.

| file | subject |
|---|---|
| `Wrappers.dfy`, `Sequences.dfy`, `Text.dfy`, `TimeOfDay.dfy`, `Grouping.dfy` | optional values, sequences, string operations, wall-clock times, grouping of flat tables |
| `TimeSlots.dfy` | acceptance, conflict and ownership of time slots |
| `SlotForm.dfy`, `SlotSave.dfy` | the flat form keys, and merging both form pages into the stored slot |
| `SlotFlow.dfy`, `DischargeWindow.dfy` | the options flow and the enable switch as a state machine; the window sensor |
| `BackupEnergy.dfy`, `BackupStore.dfy` | the backup-discharge meter, its persisted record, restarts |
| `TimelineThrottle.dfy` | publication of the operation timeline behind one timer |
| `StorageCopy.dfy`, `HomeAssistantModel.dfy`, `DomainMigration.dfy`, `ConfigBackup.dfy`, `BackupAfterMove.dfy`, `AddressChange.dfy` | copying store files, moving entries and entities to the new domain, recovery after deletion, the backup totals after either, renaming unique ids |
| `SolarHorizon.dfy`, `SolarCurve.dfy`, `SolarRemaining.dfy` | proration of dated periods, curve normalisation, the remaining budget |
| `TimelineCounts.dfy`, `PowerEnvelope.dfy` | diagnostic counters, power limits and slider bounds |

State that the integration updates in place is a class here (the flow, the
switch and the entry they share, the meter, the store, the publishing sensor and
its event loop, the host system, the registries). Each of its methods is proved
against a function of the old state, and the properties of whole runs are proved
about those functions. Numbers are exact reals or integers, times of day are
microseconds since midnight, local dates are day numbers, and a value that may be
missing, unparsable or non-finite is an explicit case. Home Assistant appears as
small maps: config entries, registered entities, live states and storage files.

## What is not as its documentation says

The model follows the code. These claims are false of it, and each has an exact
condition in the project.

* Start and end of a slot are compared as strings (`config_flow.py:1109`) but
  overlap is tested on times. A slot from `10:00` to `10:00:00` is accepted and
  denotes an empty window; it conflicts with nothing that merely touches it, not
  even with itself. At most two slots are active at one instant under the sensor's
  closed test, whatever is stored of a set of forms, exactly when none of them is such
  a single instant (`AtMostTwoExact`). `AcceptedWindow` says which accepted forms are,
  `TenToTenIsAccepted` shows one, and `ThreeActiveSlotsReached` gets from any of them
  to three active slots through the form.
* Saving the slot form unchanged does not keep a slot that was stored without days
  (it becomes an every-day slot) or with values outside the sliders. `ResaveExact`
  gives the condition for one slot and `UnchangedResaveExact` for a whole list, in
  both directions.
* `normalized_shape` promises values that sum to `remaining_kwh`. When every
  sanitised value is zero the result is all zeros, so this holds exactly when some
  cell is positive or nothing remains (`CurveSumExact`).
* If the local date moves back, a restart can revive the daily energy of a date the
  running meter had already closed (`DateSetBack`); `RestartDailyExact` states when.
* The migration and the restore promise that persisted counters survive. The
  backup-discharge records are keyed by entry id inside their file, and a copy
  rewrites only the file's name and inner key. A battery of the new entry starts at
  zero unless a record under its own new key was there before, so it goes on from its
  old totals exactly when those were zero (`TotalsStayBehind`); the old record is in
  the copied file, under the old key (`OldRecordIsCarried`).
* A device key of slave 1 is a prefix of every other slave's key behind the same
  host and port, so changing its address also renames their entities
  (`FirstSlaveCapturesTheOthers`); `CaptureExact` states which keys are safe.
  When slave 1 takes the number of a slave that is still there, the registry's order
  decides whether the renaming completes or stops half-way
  (`FirstSlaveMoveDependsOnOrder`); `FirstSlaveMove` and `AnyOrderCompletes` say when
  it completes. Host names with an underscore can share a key outright
  (`UnderscoreHostsCollide`).

Three properties need a condition that the code's own callers meet.

* A budget taken from the solar fraction stays within the whole-day forecast exactly
  when the fraction is not negative (`NegativeFractionExceeds`); the estimator clamps
  it to `[0, 1]`, and on that range `FractionBound` gives the budget.
* A slider bound is the largest step multiple within the configured power exactly when
  that multiple is an integer (`LargestMultipleExact`); the dynamic sliders have steps
  of 10 and 50, so theirs always is (`LargestMultiple`).
* A second storage copy writes nothing, for every directory, exactly when the two
  domains are equal or neither goes on after the other with a delimiter
  (`SecondCopyExact`, without entry ids; `SeparateDomainsIdle` with an id that is a
  word of its own). Between the integration's two names it is idle (`LegacyCopyIdle`);
  restoring under the same name it is when the old id always stands alone in the
  eligible file names, as in `domain.id.name` (`SameDomainIdle`).

## Model

| member | source | states |
|---|---|---|
| TimeOfDay.StringOrderIsTimeOrder | custom_components/omnibattery/config_flow.py:1109-1111 | on readable `HH:MM` and `HH:MM:SS` strings the string order used by validation is the time order used by the conflict check, with `HH:MM` below its own `HH:MM:00` as the only exception |
| TimeOfDay.WrittenTimeIsRead | custom_components/omnibattery/config_flow.py:852-861 | every time of day is read back from how it is written, with seconds or without |
| TimeSlots.ScopeTestExact | custom_components/omnibattery/config_flow.py:870-877 | for selector values, the comparison of scope strings is true exactly when the two scopes share a concrete battery |
| TimeSlots.UnlistedScopeEscapesTheTest | custom_components/omnibattery/config_flow.py:950-977 | without the selector the comparison is too weak: slots with two different scopes never conflict, yet share a battery exactly when both scopes name its number |
| TimeSlots.TwoSpellings | custom_components/omnibattery/config_flow.py:950-957 | there are two such spellings of one battery |
| TimeSlots.ScanForOverlap | custom_components/omnibattery/config_flow.py:864-883 | the scan clears a slot exactly when it conflicts with no stored one and every time it had to read was readable |
| TimeSlots.ConflictExact | custom_components/omnibattery/config_flow.py:852-883 | a conflict is reported exactly when, for some battery and weekday, an instant lies in both half-open windows or one window is a single instant strictly inside the other |
| TimeSlots.ScanExact | custom_components/omnibattery/config_flow.py:864-883 | against accepted, readable, offered slots the scan reports an overlap exactly when the form meets one of them |
| TimeSlots.AcceptedWindow | custom_components/omnibattery/config_flow.py:1098-1112 | an accepted slot never has a reversed window, and has an empty one exactly when its end is its start with `:00` appended |
| TimeSlots.ValidationExact | custom_components/omnibattery/config_flow.py:1098-1112 | for readable times each validation error is returned exactly under its own condition on direction, mode and times, and none otherwise |
| TimeSlots.ActiveExact | custom_components/omnibattery/sensor.py:454-463 | an accepted slot is active at every instant it covers, and at its end, and at no other |
| TimeSlots.SingleOwner | custom_components/omnibattery/config_flow.py:864-883 | in a conflict-free list at most one slot covers a battery at an instant |
| TimeSlots.ActivePairTouches | custom_components/omnibattery/sensor.py:454-463 | two slots active under the closed test only touch: one ends at the instant, the other starts there |
| TimeSlots.ThirdActiveSlotIsDegenerate | custom_components/omnibattery/sensor.py:454-463 | of three slots active at once in a conflict-free list one is a single instant |
| TimeSlots.SelfConflictExact | custom_components/omnibattery/config_flow.py:852-883 | an accepted slot with days can be stored beside its own copy exactly when its window is empty |
| TimeSlots.ThreeActiveSlots | custom_components/omnibattery/config_flow.py:1098-1112 | any accepted form that is a single instant on some day can be stored three times without a conflict, and the three are then active together |
| TimeSlots.AtMostTwoExact | custom_components/omnibattery/sensor.py:454-463 | for any set of accepted, offered forms, no conflict-free list made of them ever has three slots active at one instant exactly when none of the forms is a single instant |
| TimeSlots.TenToTenIsAccepted | custom_components/omnibattery/config_flow.py:1109-1112 | there is such a form: `10:00` to `10:00:00` passes validation |
| SlotForm.FieldKeyInjective | custom_components/omnibattery/config_flow.py:992-994 | different battery and field pairs never share a form key |
| SlotForm.ParseStepB | custom_components/omnibattery/config_flow.py:1115-1141 | the two parsing loops compute the grouped limits with every inverted state-of-charge pair put in order |
| SlotForm.TruncateExact | custom_components/omnibattery/config_flow.py:1115-1130 | a submitted number is cut toward zero |
| SlotForm.OtherEntriesIgnored | custom_components/omnibattery/config_flow.py:1115-1130 | a key that names no battery field, or a value that is no number, changes nothing |
| SlotForm.OrderedExact | custom_components/omnibattery/config_flow.py:1131-1141 | an inverted pair is swapped, both values kept, and everything else is left alone |
| SlotForm.FormKeyRoundTrip | custom_components/omnibattery/config_flow.py:1115-1141 | encoding any table of battery index and field and parsing it gives the same table back under the battery names, each pair in order; only batteries without a field vanish |
| SlotForm.ReparseIsStable | custom_components/omnibattery/config_flow.py:1115-1141 | encoding the parsed limits and parsing again changes nothing |
| SlotSave.FinalizeSlot | custom_components/omnibattery/config_flow.py:1144-1195 | the merge loop keeps the first page verbatim, only limits whose override is ticked, and hidden keys only for the same schedule |
| SlotSave.MovedSlotStartsEnabled | custom_components/omnibattery/config_flow.py:1154-1156 | the replaced slot leaves no trace exactly when start, end, days or scope differ or it held nothing but the default flag; without a trace a slot starts enabled |
| SlotSave.HiddenKeysKept | custom_components/omnibattery/config_flow.py:1154-1195 | a slot that stays where it is keeps every hidden key with its value and gains at most the enabled flag |
| SlotSave.StoredLimitsExact | custom_components/omnibattery/config_flow.py:1144-1195 | of any submitted second page exactly the ticked fields are stored, in order, under their battery, and no empty row |
| SlotSave.FreshFields | custom_components/omnibattery/config_flow.py:1040-1095 | without earlier limits each field opens with the battery's own setting, moved to the nearest end of its slider where it is outside |
| SlotSave.MergeIsFixedPoint | custom_components/omnibattery/config_flow.py:1144-1195 | merging the same pages over the merged slot, whatever that one replaced, changes nothing |
| SlotSave.ResaveExact | custom_components/omnibattery/config_flow.py:1033-1095 | saving both pages as they open keeps a stored slot, hidden keys included, exactly when it is complete and in range; a second unchanged save never changes anything |
| SlotSave.ResavedIsResavable | custom_components/omnibattery/config_flow.py:997-1095 | whatever was stored, the defaults of both pages describe a slot with days, an offered scope, a known enabled flag and in-range limits for exactly the targeted batteries |
| SlotSave.FirstPageKept | custom_components/omnibattery/config_flow.py:997-1010 | an unchanged save keeps the first page exactly when both times, some day and an offered scope were stored; a slot without days becomes an every-day slot |
| SlotFlow.OptionsFlow.StepTimeSlots | custom_components/omnibattery/config_flow.py:4940-4950 | the opening question either starts an empty list or stores no slots |
| SlotFlow.DecliningClears | custom_components/omnibattery/config_flow.py:4940-4950 | declining the opening question stores no slots, whatever was stored |
| SlotFlow.OptionsFlow.StepAddTimeSlot | custom_components/omnibattery/config_flow.py:4964-4998 | the first page is rejected with its exact error, held for the second page, or appended |
| SlotFlow.RejectionExact | custom_components/omnibattery/config_flow.py:4964-4986 | for readable times and offered scopes the first page is taken exactly when it has a direction, power if manual, ordered times and meets no collected slot; each error is returned exactly under its own condition |
| SlotFlow.RefusedInputChangesNothing | custom_components/omnibattery/config_flow.py:4964-4998 | a rejected page, and input for a page not shown, change nothing |
| SlotFlow.OptionsFlow.StepAddTimeSlotDetails | custom_components/omnibattery/config_flow.py:5000-5025 | the second page appends the held slot with its limits |
| SlotFlow.OptionsFlow.FinalizeTimeSlot | custom_components/omnibattery/config_flow.py:5027-5048 | the held slot is merged with the stored slot at its position, appended, and the list is saved when full |
| SlotFlow.OptionsFlow.StepAddMoreSlots | custom_components/omnibattery/config_flow.py:5050-5057 | the list is saved or another form is shown |
| SlotFlow.TimeSlotSwitch.UpdateSlotEnabled | custom_components/omnibattery/switch.py:742-752 | the switch rewrites one flag of the list it shares with the flow, and nothing past the end |
| SlotFlow.ToggleExact | custom_components/omnibattery/switch.py:742-760 | switching changes whether that one slot governs discharge and no other key or slot, and an unchanged re-save keeps the switched state |
| SlotFlow.FreshInstall | custom_components/omnibattery/config_flow.py:4951-4952 | a new installation, with nothing stored, is a legal start for every theorem about runs |
| SlotFlow.OneOwnerAfterAnyRun | custom_components/omnibattery/config_flow.py:4964-5041 | after any run of flow steps, toggles and battery changes no two stored slots cover one battery at one instant, and there are at most eight |
| SlotFlow.ActiveAfterAnyRun | custom_components/omnibattery/sensor.py:454-463 | after any run two slots active under the closed test touch at the instant, and a third means one of them is a single instant |
| SlotFlow.StoredSlotsCanAct | custom_components/omnibattery/config_flow.py:1098-1112 | after any run every stored slot permits a direction, has power limits if manual, and has no reversed window |
| SlotFlow.EveryFineListIsReached | custom_components/omnibattery/config_flow.py:4940-5057 | from a new installation every conflict-free list of up to eight accepted, offered slots is stored, in order, by entering its pages |
| SlotFlow.ThreeActiveSlotsReached | custom_components/omnibattery/config_flow.py:4940-5057 | from a new installation, entering any single-instant form three times stores three slots active at one instant |
| SlotFlow.PendingFitsAfterAnyRun | custom_components/omnibattery/config_flow.py:4982-4986 | while a slot waits for its second page it conflicts with none collected so far and there is room for it |
| SlotFlow.SavingRepairsStored | custom_components/omnibattery/config_flow.py:4943-4946 | whatever list was stored before, completing the flow stores a conflict-free one |
| SlotFlow.UnchangedResave | custom_components/omnibattery/config_flow.py:5027-5074 | opening the flow and accepting every page as it is shown stores exactly the same list, disabled flags included, within three pages a slot and the opening question |
| SlotFlow.UnchangedResaveExact | custom_components/omnibattery/config_flow.py:4940-5074 | for every stored list and every fleet, accepting the pages as they are shown ever ends with that same list exactly when it is within the maximum, every slot is valid and in conflict with none before it, and every slot is complete and in range |
| DischargeWindow.NativeValue | custom_components/omnibattery/sensor.py:434-465 | the sensor is active exactly when an enabled discharge slot's closed window holds the instant, at every instant such a slot covers, and reports no slots exactly when none governs discharge |
| DischargeWindow.ActiveSlot | custom_components/omnibattery/sensor.py:486-503 | the reported number is the first such slot counted over the full list, and there is one whenever such a slot covers the instant |
| DischargeWindow.FlagDefaultsToOn | custom_components/omnibattery/sensor.py:434-453 | a slot without the enabled flag governs discharge like one switched on, one switched off never does |
| DischargeWindow.ReportedSlotIsTheOwner | custom_components/omnibattery/sensor.py:454-463 | away from a window's end the slot found is the one that covers the instant |
| BackupEnergy.BackupDischargeAccumulator.Observe | custom_components/omnibattery/energy.py:45-81 | one sample updates the meter as specified and reports true exactly when the lifetime total grew |
| BackupEnergy.RunIsIntegral | custom_components/omnibattery/energy.py:53-81 | any run adds exactly the energy of adjacent samples that are both active and at most 600 s apart |
| BackupEnergy.IntegralNext | custom_components/omnibattery/energy.py:66-79 | each further sample adds its own power times the gap over 3,600,000 exactly when both ends are active and the gap is positive and at most 600 s |
| BackupEnergy.EnergyLaws | custom_components/omnibattery/energy.py:75-77 | energy is proportional to power and to time, and a kilowatt for an hour is a kilowatt hour |
| BackupEnergy.GainBound | custom_components/omnibattery/energy.py:66-79 | on a forward clock the gain is at most the power limit over the elapsed time |
| BackupEnergy.DayConservation | custom_components/omnibattery/energy.py:53-81 | closed days plus the current day are the lifetime total, and the daily total never exceeds it |
| BackupEnergy.DailyIsToday | custom_components/omnibattery/energy.py:53-55 | while dates move forward the daily total is the energy of the intervals ending today |
| BackupEnergy.BackupDischargeAccumulator.Publish | custom_components/omnibattery/energy.py:83-96 | publishing writes the specified keys into the shared dictionary |
| BackupEnergy.PublishedTotals | custom_components/omnibattery/energy.py:83-96 | both backup totals land under their own key, the corrected one is there exactly when the hardware value is valid, no foreign key changes, and publishing again changes nothing |
| BackupEnergy.ReadAfterPublish | custom_components/omnibattery/energy.py:14-32 | reading after publishing gives hardware plus integrated energy, and nothing without a valid hardware value |
| BackupEnergy.ReadUnpublished | custom_components/omnibattery/energy.py:14-32 | a dictionary without a corrected total reads as its hardware value, if that is a non-negative number, and else as nothing |
| BackupEnergy.CorrectedNeverFalls | custom_components/omnibattery/energy.py:83-96 | while valid hardware readings never fall, no available corrected reading is below an earlier one |
| BackupStore.BackupDischargeEnergyStore.Load | custom_components/omnibattery/backup_discharge_store.py:25-50 | loading rebuilds exactly the records that pass the filter |
| BackupStore.LoadFilterExact | custom_components/omnibattery/backup_discharge_store.py:31-49 | a stored value is loaded exactly when it is a dictionary with a non-negative total and no bad daily total, a missing daily total counting as zero |
| BackupStore.LoadedIsNonNegative | custom_components/omnibattery/backup_discharge_store.py:39-49 | nothing negative, non-finite or unparsable is ever loaded |
| BackupStore.LoadKeepsRecords | custom_components/omnibattery/backup_discharge_store.py:25-50 | writing and loading non-negative records drops and changes none |
| BackupStore.BackupDischargeEnergyStore.Set | custom_components/omnibattery/backup_discharge_store.py:62-76 | the record of one battery is replaced by the given totals and date, every other battery's record stays |
| BackupStore.BackupCoordinator.UpdateBackupDischargeEnergy | custom_components/omnibattery/infra/coordinator.py:1677-1706 | a poll observes, publishes, and writes a record exactly when the sample counted |
| BackupStore.OthersUntouched | custom_components/omnibattery/infra/coordinator.py:1696-1706 | a battery's polls never touch another battery's record |
| BackupStore.RestartLosesOneInterval | custom_components/omnibattery/infra/coordinator.py:570-586 | a restart on any date costs exactly the interval joining the two runs, at most its power over 600 s |
| BackupStore.LifetimeOverRestarts | custom_components/omnibattery/backup_discharge_store.py:52-76 | over any number of restarts on any dates the recorded total is the start plus every life's own integral |
| BackupStore.RestartDailyExact | custom_components/omnibattery/backup_discharge_store.py:52-60 | for whatever was recorded before, the rebuilt daily total is the one the running meter would have, unless a non-zero record older than the last date change carries that very date |
| BackupStore.RestartDailyLoss | custom_components/omnibattery/backup_discharge_store.py:52-60 | at any restart in a battery's life, on any date between two samples, while dates move forward, the daily total is short by the joining interval on the date of the next sample and by nothing on any later one |
| BackupStore.DailyOverRestarts | custom_components/omnibattery/backup_discharge_store.py:52-76 | over any number of restarts, while dates move forward, today's recorded total is what was recorded for it plus every life's intervals ending today |
| BackupStore.CorrectedOverRestarts | custom_components/omnibattery/energy.py:14-32 | over any polls and restarts, while valid hardware readings never fall, no available corrected reading is below an earlier one |
| BackupStore.DateSetBack | custom_components/omnibattery/backup_discharge_store.py:52-60 | a concrete run with the date set back for which the rebuilt daily total is larger |
| TimelineThrottle.DailyOperationTimelineSensor.HandleTimelineUpdate | custom_components/omnibattery/sensor.py:2369-2393 | an update publishes, schedules the one timer or does nothing, as specified |
| TimelineThrottle.DailyOperationTimelineSensor.CancelTimelinePublish | custom_components/omnibattery/sensor.py:2266-2271 | the held timer, and no other, leaves the event loop |
| TimelineThrottle.FreshSensor | custom_components/omnibattery/sensor.py:2256-2264 | a sensor just created, whatever the clock reads, is a legal start for every theorem about runs |
| TimelineThrottle.RunKeepsInvariant | custom_components/omnibattery/sensor.py:2351-2393 | in every legal run, late timers included, the loop holds at most the entity's one timer, due 15 s after the last publication, and every non-immediate publication is at least 15 s after the one before it |
| TimelineThrottle.RateBound | custom_components/omnibattery/sensor.py:2381-2393 | any window of length T holds at most floor(T / 15) + 1 non-immediate publications |
| TimelineThrottle.UpdateIsPublished | custom_components/omnibattery/sensor.py:2369-2393 | with timers on time every update is published by its deadline: at once if it is immediate or 15 s have passed since the last publication, else 15 s after that one |
| TimelineThrottle.ImmediateOnRequest | custom_components/omnibattery/sensor.py:2373-2379 | only an immediate update bypasses the throttle |
| TimelineThrottle.SilentAfterRemoval | custom_components/omnibattery/sensor.py:2311-2351 | removal cancels the timer and unsubscribes the listener, after which no timer remains and nothing is published |
| StorageCopy.StorageDirectory.MigrateStorageFiles | custom_components/omnibattery/domain_migration.py:50-105 | the loop writes the specified copies for any directory order |
| StorageCopy.CopyExtends | custom_components/omnibattery/domain_migration.py:93-95 | no existing file is altered or removed |
| StorageCopy.CopyCarriesOver | custom_components/omnibattery/domain_migration.py:75-105 | after a copy every eligible readable file has its counterpart under the new name, nothing that was there changed, and every new file is the rekeyed copy of an eligible file |
| StorageCopy.EligibleExact | custom_components/omnibattery/domain_migration.py:80-89 | a name is copied exactly when it is the old domain or goes on after it with `.` or `_`, and does not end in `.config_backup` |
| StorageCopy.EntryFileName | custom_components/omnibattery/domain_migration.py:90-92 | a file of an entry changes its domain and its entry id, and nothing else |
| StorageCopy.DomainFileName | custom_components/omnibattery/domain_migration.py:90-92 | a file of the domain alone changes its domain and nothing else |
| StorageCopy.CopyContent | custom_components/omnibattery/domain_migration.py:96-103 | a copied document has the same body and, if it had an inner key, its own name there; any other text is unchanged |
| StorageCopy.EntryFileFollows | custom_components/omnibattery/domain_migration.py:75-105 | after a copy each readable file of the old entry is there under the new domain and entry id, a rekeyed copy unless it was there before |
| StorageCopy.EntryFilesFollow | custom_components/omnibattery/domain_migration.py:178-188 | the same after several copies in a row, for the entry of each |
| StorageCopy.InTurnCarriesAll | custom_components/omnibattery/domain_migration.py:178-188 | after several copies in a row no original file changed, each has its counterpart under every renaming, and every new file is a rekeyed copy |
| StorageCopy.NewFilesAreCopies | custom_components/omnibattery/domain_migration.py:75-105 | the returned names are exactly the new files, without repetition, each a rekeyed copy of one eligible readable file |
| StorageCopy.InnerKeyIsFileName | custom_components/omnibattery/domain_migration.py:78-103 | a new file's inner key is its file name, and a config backup is never a source |
| StorageCopy.SecondCopyIdle | custom_components/omnibattery/domain_migration.py:75-105 | a second copy writes nothing exactly when each file the first wrote is not eligible or already has its target |
| StorageCopy.SecondCopyExact | custom_components/omnibattery/domain_migration.py:84-95 | without entry ids, a second copy is idle for every directory exactly when the domains are equal or neither goes on after the other with a delimiter |
| StorageCopy.SeparateDomainsIdle | custom_components/omnibattery/domain_migration.py:75-105 | between separate domains, with an old id that has no delimiter and does not occur in the new domain, a second copy writes nothing whatever the directory holds |
| StorageCopy.LegacyCopyIdle | custom_components/omnibattery/migration_flow.py:29 | so it is from the integration's old name to its new one, for every entry id longer than the new name |
| StorageCopy.SameDomainIdle | custom_components/omnibattery/config_backup.py:120-131 | restoring under the same domain, a second copy writes nothing when the old id stands alone in every eligible name and is no part of the new one |
| DomainMigration.RepointEntities | custom_components/omnibattery/domain_migration.py:159-173 | every linked entity is freed of its live state before the platform update, and exactly the linked ones move |
| DomainMigration.MigrateEntry | custom_components/omnibattery/domain_migration.py:121-193 | one entry is replaced by an enabled mirror, its entities move, no entity is lost, and its store files are carried over: counterparts of all, nothing altered, nothing new but rekeyed copies |
| DomainMigration.MigrateLegacyDomainEntries | custom_components/omnibattery/domain_migration.py:108-197 | over all legacy entries: each is replaced by its paired mirror, enabled even if the user had disabled it, each linked entity ends on the new domain and that entry, store files are carried over entry by entry, everything else is untouched |
| DomainMigration.IdentityKept | custom_components/omnibattery/domain_migration.py:159-173 | entity ids, unique ids and the user's own changes survive the whole migration |
| DomainMigration.KeysStayUnique | custom_components/omnibattery/domain_migration.py:28-30 | every moved entity is found again under its unique id on the new domain, alone, exactly when that id was not taken there before |
| DomainMigration.RemovingFirstLosesEntities | custom_components/omnibattery/domain_migration.py:21-23 | removing the old entry before re-pointing would delete exactly its entities |
| ConfigBackup.ConfigBackupStore.AsyncSaveConfigBackup | custom_components/omnibattery/config_backup.py:60-65 | the snapshot of the domain's entries replaces the backup, and an empty snapshot does not |
| ConfigBackup.ConfigBackupStore.AsyncRestoreConfigBackup | custom_components/omnibattery/config_backup.py:81-132 | one new enabled entry per record with the record's content, store files carried over record by record, existing entries and entities untouched |
| ConfigBackup.BackupIsLastSnapshot | custom_components/omnibattery/config_backup.py:60-73 | after any run the backup is the snapshot of the last save made while entries existed |
| ConfigBackup.BackupIsNeverCleared | custom_components/omnibattery/config_backup.py:60-65 | a run without such a save leaves the backup as it was |
| ConfigBackup.RecoveryIsLastSnapshot | custom_components/omnibattery/config_backup.py:81-132 | after any run saved under the old domain, restoring under the new one beside any entries of other domains makes that domain's entries exactly those of the last snapshot and leaves the others alone |
| BackupAfterMove.TotalsStayBehind | custom_components/omnibattery/__init__.py:10804-10805 | after any migration or restore a battery of the new entry starts at zero from whichever store file it loads, unless a record under its own key was there before; it goes on from the old record exactly when that was zero |
| BackupAfterMove.OldRecordIsCarried | custom_components/omnibattery/domain_migration.py:93-103 | the copied store file holds exactly the old records, under their old keys |
| AddressChange.EntityRegistry.MigrateBatteryRegistryIds | custom_components/omnibattery/config_flow.py:2859-2891 | the loop completes exactly when no entity holds a wanted unique id without having been renamed before; it then renames as specified, and otherwise stops at the first such entity with exactly those before it renamed |
| AddressChange.RenameKeepsIdentity | custom_components/omnibattery/config_flow.py:2884-2891 | whenever the renaming completes, entity ids stay, entities of other entries or prefixes are unchanged, and no two entities end under one key |
| AddressChange.AnyOrderCompletes | custom_components/omnibattery/config_flow.py:2884-2891 | the renaming completes in every registry order exactly when no entity has a unique id it is about to hand out |
| AddressChange.DeviceFollows | custom_components/omnibattery/config_flow.py:2885-2891 | every entity of the device keeps its suffix under the new address |
| AddressChange.RenameBack | custom_components/omnibattery/config_flow.py:2884-2891 | with a fresh new prefix, changing the address back restores every unique id |
| AddressChange.CaptureExact | custom_components/omnibattery/config_flow.py:2876-2889 | another device is safe from the renaming, whatever its entities are called, exactly when neither prefix extends the other |
| AddressChange.OtherPortIsSafe | custom_components/omnibattery/config_flow.py:2876-2889 | devices of one host on different ports never capture each other's entities |
| AddressChange.OtherHostIsSafe | custom_components/omnibattery/config_flow.py:2876-2889 | nor do devices of different hosts whose names have no underscore |
| AddressChange.UnderscoreHostsCollide | custom_components/omnibattery/config_flow.py:2876-2882 | with an underscore two hosts can share a device key |
| AddressChange.DeviceKeyInjective | custom_components/omnibattery/config_flow.py:2876-2877 | two devices of one host share a key only if port and slave are the same |
| AddressChange.FirstSlaveCapturesTheOthers | custom_components/omnibattery/config_flow.py:2876-2882 | slave 1's prefix captures every entity of every other slave behind the same address |
| AddressChange.FirstSlaveMove | custom_components/omnibattery/config_flow.py:2876-2891 | slave 1 taking another slave's number completes exactly when every holder of a wanted id belongs to the same entry and comes earlier in the registry |
| AddressChange.FirstSlaveMoveDependsOnOrder | custom_components/omnibattery/config_flow.py:2884-2891 | with one sensor on each of the two slaves, one registry order completes and the other aborts |
| SolarHorizon.PeriodEnergyBetween | custom_components/omnibattery/solar_forecast.py:378-408 | the loop sums every period's share of the horizon |
| SolarHorizon.HorizonIsProportional | custom_components/omnibattery/solar_forecast.py:401-408 | of one period a horizon holds energy in proportion to the time between its two ends, each moved to the nearest instant of the period |
| SolarHorizon.RunningPeriod | custom_components/omnibattery/solar_forecast.py:401-408 | a horizon inside a running period holds exactly that part of it, and one outside holds nothing |
| SolarHorizon.PeriodsAdd | custom_components/omnibattery/solar_forecast.py:401-408 | the energies of several periods add up |
| SolarHorizon.HorizonAdditive | custom_components/omnibattery/solar_forecast.py:398-408 | splitting a horizon splits its energy |
| SolarHorizon.HorizonBounds | custom_components/omnibattery/solar_forecast.py:401-408 | the energy lies between nothing and the summed period energy |
| SolarHorizon.CoveringHorizon | custom_components/omnibattery/solar_forecast.py:401-408 | a covering horizon holds all the energy |
| SolarHorizon.OrderIrrelevant | custom_components/omnibattery/solar_forecast.py:401-408 | reordering the periods changes nothing |
| SolarHorizon.SplitIrrelevant | custom_components/omnibattery/solar_forecast.py:401-408 | reporting a period as two halves, each with energy in proportion to its duration, changes no horizon |
| SolarCurve.NormalizedShape | custom_components/omnibattery/solar_forecast.py:105-123 | the method computes the repaired curve for any rounding of the products |
| SolarCurve.CellExact | custom_components/omnibattery/solar_forecast.py:110-115 | a non-negative number is its own cell, everything else is zero |
| SolarCurve.CurveTracksShape | custom_components/omnibattery/solar_forecast.py:119-123 | with rounding error at most u the curve sums exactly to the remaining energy, each cell but the last is within u of proportional, the last within n - 1 times u |
| SolarCurve.ShapeTracked | custom_components/omnibattery/solar_forecast.py:119-123 | every cell is to the remaining energy what its value is to the sum of the shape, up to u times that sum, in the last cell up to n - 1 times as much |
| SolarCurve.ExactCurve | custom_components/omnibattery/solar_forecast.py:119-123 | without rounding the curve is proportional and has no negative cell |
| SolarCurve.ShapeKept | custom_components/omnibattery/solar_forecast.py:119-123 | without rounding, and with some positive value, every cell is to the remaining energy exactly what its value is to the sum of the shape |
| SolarCurve.FlatCurve | custom_components/omnibattery/solar_forecast.py:116-118 | without a positive cell the curve is all zeros |
| SolarCurve.CurveSumExact | custom_components/omnibattery/solar_forecast.py:105-123 | the promised sum is reached exactly when some cell is positive or nothing remains |
| SolarRemaining.Controller.ReadRemainingSolar | custom_components/omnibattery/solar_forecast.py:469-576 | the method returns the specified, never negative budget, and a read-only call leaves the controller unchanged |
| SolarRemaining.SensorsRead | custom_components/omnibattery/solar_forecast.py:283-327 | a usable remaining sensor is read, else a usable whole-day one, else there is no forecast and a zero budget |
| SolarRemaining.UnitsAgree | custom_components/omnibattery/solar_forecast.py:283-327 | a sensor in watt hours gives the budget of one in kilowatt hours with a thousandth of its number |
| SolarRemaining.DatedReadIsOverlap | custom_components/omnibattery/solar_forecast.py:500-542 | a dated whole-day forecast always yields exactly its overlap with the rest of the day, zero scalar or not |
| SolarRemaining.SuccessiveReads | custom_components/omnibattery/solar_forecast.py:536-542 | two reads in one day differ by exactly the energy between them, so nothing is counted twice |
| SolarRemaining.RemainingPassesThrough | custom_components/omnibattery/solar_forecast.py:500-534 | a remaining-today value passes unchanged exactly unless it is zero against dated energy still to come, which then replaces it |
| SolarRemaining.RemainingSensorWins | custom_components/omnibattery/solar_forecast.py:283-327 | the remaining sensor decides exactly when it is usable, and then neither the whole-day sensor nor the solar curve nor the hour has any influence |
| SolarRemaining.FractionBound | custom_components/omnibattery/solar_forecast.py:543-558 | on the estimator's range the curve-based budget is the remaining share of the whole day, between nothing and all of it |
| SolarRemaining.WithoutCurve | custom_components/omnibattery/solar_forecast.py:559-576 | without a curve and dated periods the whole day remains before eleven o'clock and nothing from then on |
| SolarRemaining.NegativeFractionExceeds | custom_components/omnibattery/solar_forecast.py:543-558 | that budget stays within the whole-day total exactly when the fraction is not negative or the total is zero |
| TimelineCounts.TimelineActionCounts | custom_components/omnibattery/diagnostics.py:602-622 | the loop counts bits and overlaps of the first 96 masks |
| TimelineCounts.CountsExact | custom_components/omnibattery/diagnostics.py:602-622 | each counter is the number of cells 0 to 95 with that action, or with two or three actions |
| TimelineCounts.MaskOfBits | custom_components/omnibattery/diagnostics.py:609-621 | a mask is 1 for solar charging plus 2 for grid charging plus 4 for discharging |
| TimelineCounts.ActionCountsAddUp | custom_components/omnibattery/diagnostics.py:602-622 | per-action counts are the single cells plus twice the double plus three times the triple ones |
| TimelineCounts.SummariseCells | custom_components/omnibattery/diagnostics.py:744-808 | the two separate loops count one partition of the 96 cells, each counter is the number of such cells, partial cells are real, and unknown is zero exactly when every cell holds something |
| TimelineCounts.UnknownExact | custom_components/omnibattery/diagnostics.py:744-808 | nothing is known about a cell exactly when four columns have no value there and five have none or zero |
| TimelineCounts.CombinedActions | custom_components/omnibattery/diagnostics.py:775-780 | per action, combined cells are actual plus planned cells with shared ones counted once |
| PowerEnvelope.CapOnlyNarrows | custom_components/omnibattery/const/integration_const.py:762-809 | for every fleet a direction is cut to exactly its cap when that is active, non-zero and below the summed minima, and else keeps the sum |
| PowerEnvelope.MissingSwitchIsOn | custom_components/omnibattery/const/integration_const.py:772-786 | an entry from before the switch behaves as if it were on |
| PowerEnvelope.TotalAdds | custom_components/omnibattery/const/integration_const.py:762-769 | each direction of a fleet is the sum over its batteries |
| PowerEnvelope.OneBattery | custom_components/omnibattery/const/integration_const.py:726-759 | a battery has in each direction the smaller of its device limit and its setting, and nothing for a negative or unreadable one |
| PowerEnvelope.LegacyMatchesNormalised | custom_components/omnibattery/const/integration_const.py:726-759 | a legacy entry has the limits of a normalised one with the same numbers exactly when each direction with power has its soft ceiling stored |
| PowerEnvelope.LargestMultiple | custom_components/omnibattery/number.py:365-379 | on an integral step, as all dynamic sliders have, the bound is the largest multiple within the configured power |
| PowerEnvelope.LargestMultipleExact | custom_components/omnibattery/number.py:365-379 | for every step the bound is the largest multiple within the configured power exactly when that multiple is an integer |
| PowerEnvelope.BoundsNonDegenerate | custom_components/omnibattery/number.py:382-425 | for every fleet the slider's minimum is below its maximum when the authored range straddles zero |
| PowerEnvelope.BoundsExact | custom_components/omnibattery/number.py:382-425 | every dynamic bound is the largest step multiple within its own direction's power, or the authored bound if there is none |

## Left out

- Time strings other than `HH:MM` and `HH:MM:SS` (fractions, offsets, basic format) count as unreadable; `int()` on scopes accepts plain digit strings only, without sign, blanks or underscores.
- The first-time setup flow is the same machine started from an empty stored list; its other pages, and the schemas of all pages beyond scope options and defaults, are not modelled.
- Slots written by older versions are not assumed conflict-free: the run theorems start from a list this flow could have stored, and `SlotFlow.SavingRepairsStored` needs nothing of the old list.
- A stored slot has all nine form fields; the per-field fallbacks for missing keys are not modelled.
- SlotSave.ResaveExact: the hardware ceiling of a battery is a given number, its lookup by model version is not modelled.
- The delayed, coalesced write of the backup store: a record counts as written when it is set; how its document is encoded as text is a parameter.
- The stored battery key's conversion to a string, and store versions.
- TimelineThrottle.UpdateIsPublished: the clock readings inside one callback are one instant, and the host has an event loop; without one the code drops an update that arrives too early.
- The order of backup records, subentries and discovery keys; a record list is a table by entry id.
- New entry ids are parameters; platform set-up of the new entry is reduced to its entities having states again.
- Failures of unloading, adding or removing an entry, and of writing a file.
- The device-registry identifiers that change together with the unique ids.
- DomainMigration.KeysStayUnique: requires the moved entities to be on the old domain's platform, as entities linked to its entries are.
- Parsing of provider periods and time zones: periods, the instant and the next local midnight are given; configuration precedence between entry data and options is not modelled.
- SolarCurve.CurveTracksShape: the sums and the final repair are exact, only the products are rounded.
- `TimelineCounts` works on columns of optional natural numbers; the coercion of arbitrary attribute values and the separate coexistence masks are not modelled.
- PowerEnvelope.LargestMultiple: settings are integers; fractional settings, which the code truncates, are not modelled.
- Pricing, control and tracking engines, drivers, user interface and notifications.
