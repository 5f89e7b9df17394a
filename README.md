# TechInterventionPlanner booking core, in Dafny

This is a model of the booking core of TechInterventionPlanner, a C++ field-service scheduler. The model has five parts:

- **Day ledger** (`InterventionPlanner`). It maps each day to the ids booked on it, in booking order. A day holds at most ten ids, and a day whose list empties is dropped.
- **Technician directory and availability ledger** (`TechnicianManager`). Each technician has bookings keyed by start instant, with a length in minutes. Two bookings clash when their half-open intervals overlap.
- **Intervention records.** These are the base record, with Maintenance and Emergency variants; the Emergency priority is clamped to 1..5. The factories and the type-to-factory registry belong here too.
- **Capability decorators.** These are the forwarding wrapper, GPS tracking (an append-only sample log and an update frequency of at least 1) and attachments (a list with unique filenames).
- **Orchestration facade** (`InterventionManager`). It creates, deletes, modifies, re-statuses and assigns interventions, decorates them and feeds their capabilities. Each event is fanned out to the observers interested in it.

## How the model is built

The source's objects that are updated in place are Dafny classes with `map`/`seq` fields:

- `Planner.InterventionPlanner`, `Availability.TechnicianManager` and `Facade.InterventionManager`;
- `Factories.InterventionFactoryRegistry`;
- `Records.Intervention` and `Staff.Technician`;
- the three decorator classes.

Each method is proved against a specification function on values, such as `Schedule`, `Remove`, `Reschedule`, `Book`, `Unbook`, `WithAttachment`, `WithoutFile`, `Fanout` and `WithoutHandle`. Lemmas then prove the properties of those functions.

Inside the facade, a stored intervention is a value `Decorated(base, layers)`: the base record plus its wrappers, outermost last. The source's `dynamic_cast` of the stored `unique_ptr` becomes a test of the outermost layer's tag. `Decorators.Nest` rebuilds the source's nested chain of wrapper objects from this value, and lemmas show that forwarding through the chain reads and writes the base record.

The facade's invariant, `Facade.Consistent`, ties the stored records to the ledgers:

- every stored id is below the id counter and is its record's own id;
- every stored id is listed, once, under the day of its record's date;
- every listed id is stored.

Together with the ledger invariants (day capacity, no empty days, pairwise non-overlapping bookings, bookings only for known technicians), it is kept by every facade operation.

Time is an `int` count of seconds. Calendar dates come from a fixed zone with 86400-second days (`Calendar.Day`, `Calendar.Split`).

## Model

| member | source | states |
|---|---|---|
| Calendar.DaysInMonth | src/Business/InterventionPlanner.cpp:144-157 | 0 exactly for months outside 1..12, otherwise 28..31. February has 29 days exactly in Gregorian leap years and 28 otherwise. |
| Calendar.DaysBefore | src/Business/InterventionPlanner.cpp:144-157 | The days before a month lie between 28 and 31 per preceding month. |
| Calendar.DaysInYearIsLeapAware | src/Business/InterventionPlanner.cpp:144-157 | The twelve month lengths add up to 366 in a leap year and 365 otherwise. |
| Calendar.YearStartStep | src/Business/InterventionPlanner.cpp:98-103 | Consecutive years start one year-length apart. |
| Calendar.MonthSplit | src/Business/InterventionPlanner.cpp:98-103 | A day offset within a year maps to a valid date of that year whose day number is that offset. |
| Calendar.SplitDays | src/Business/InterventionPlanner.cpp:98-103 | Any day number, before or after 1970, maps to a valid date with that day number. |
| Calendar.Split | src/Business/InterventionPlanner.cpp:98-103 | The year/month/day-of-month of an instant is a valid date, and its day number is the instant's day count. |
| Calendar.DayBounds | src/Business/InterventionPlanner.cpp:135-142 | `normalizeToDay` gives the midnight at or before the instant, less than a day earlier, on a day boundary. |
| Calendar.DayIsIdempotent | src/Business/InterventionPlanner.cpp:135-142 | Normalising a normalised instant changes nothing. |
| Calendar.SplitOfDay | src/Business/InterventionPlanner.cpp:98-103 | Normalising to the day keeps the calendar date. |
| Calendar.SplitIsInjectiveOnDays | src/Business/InterventionPlanner.cpp:98-103 | Two normalised days with the same calendar date are equal, so at most one ledger day matches a day of the month. |
| Planner.EraseFirst | src/Business/InterventionPlanner.cpp:55-62 | Erasing the first occurrence removes exactly one copy of a present id, and leaves a list without it unchanged. |
| Planner.EraseFirstSkips | src/Business/InterventionPlanner.cpp:55-62 | Erasure leaves the prefix before the first occurrence untouched. |
| Planner.EraseAt | src/Business/InterventionPlanner.cpp:55-62 | Erasing the first occurrence found at a position splices the list around that position. |
| Planner.SlotAvailable | src/Business/InterventionPlanner.cpp:110-126 | True iff the day of the date has no list or a list of fewer than ten ids; a refused slot means the day holds at least ten. The duration plays no part. |
| Planner.Schedule | src/Business/InterventionPlanner.cpp:13-26 | A full day leaves the ledger unchanged. Otherwise the id is appended at the end of its day's list, and no other day changes. |
| Planner.Remove | src/Business/InterventionPlanner.cpp:44-70 | A missing day or id changes nothing. Otherwise one occurrence is erased, the day is dropped once empty, and no other day changes. |
| Planner.SchedulePreservesWellFormed | src/Business/InterventionPlanner.cpp:13-26 | Scheduling keeps every stored day non-empty, at most ten long and keyed by its midnight. |
| Planner.RemovePreservesWellFormed | src/Business/InterventionPlanner.cpp:44-70 | Removal keeps the same ledger invariant, dropping a day rather than leaving it empty. |
| Planner.RescheduleSucceeds | src/Business/InterventionPlanner.cpp:28-42 | A reported success means the id was listed on the old day and the target day had fewer than ten ids. |
| Planner.Reschedule | src/Business/InterventionPlanner.cpp:28-42 | A full target day or an id not on the old day leaves the ledger unchanged. Only the old and the new day can change, and no day other than the new one is added. |
| Planner.RescheduleIsAtomic | src/Business/InterventionPlanner.cpp:28-42 | Rescheduling succeeds iff the target day has room and the id is listed on the old day. On failure the ledger is unchanged; on success it equals remove-then-schedule. |
| Planner.FullDayRejects | src/Business/InterventionPlanner.cpp:13-26 | A day holding ten ids refuses an eleventh and stays at ten. |
| Planner.InterventionPlanner.constructor | src/Business/InterventionPlanner.cpp:9-11 | The ledger starts empty. |
| Planner.InterventionPlanner.IsTimeSlotAvailable | src/Business/InterventionPlanner.cpp:110-126 | True iff the day has no list or fewer than ten ids; the duration is ignored. |
| Planner.InterventionPlanner.ScheduleIntervention | src/Business/InterventionPlanner.cpp:13-26 | The result is the slot test, and the new ledger is `Schedule` of the old one. The ledger invariant is kept. |
| Planner.InterventionPlanner.RemoveIntervention | src/Business/InterventionPlanner.cpp:44-70 | The result is whether the id is listed on that day, and the new ledger is `Remove` of the old one. The ledger invariant is kept. |
| Planner.InterventionPlanner.RescheduleIntervention | src/Business/InterventionPlanner.cpp:28-42 | The capacity check comes before removal, so a full target changes nothing. On success the ledger is `Reschedule` of the old one. |
| Planner.InterventionPlanner.GetInterventionsForDay | src/Business/InterventionPlanner.cpp:72-83 | The day's list, in stored order, or empty for a day without one. |
| Planner.InterventionPlanner.CountInterventionsPerDay | src/Business/InterventionPlanner.cpp:85-108 | The keys are exactly 1..days in the month. Each ledger day in that month and year gives its list length, and every other count is 0. |
| Planner.InterventionPlanner.OptimizeSchedule | src/Business/InterventionPlanner.cpp:128-132 | Always true; the ledger is not touched. |
| Records.TypeName | src/Model/MaintenanceIntervention.cpp:15-17 | "Maintenance" for the maintenance variant and "Emergency" for the emergency one, and only those. |
| Records.ClampPriority | src/Model/EmergencyIntervention.cpp:13-19 | The result is in 1..5, equals the input when that is in range, and is the nearer bound otherwise. |
| Records.ClampIsIdempotent | src/Model/EmergencyIntervention.cpp:29-33 | Setting the priority to the current priority changes nothing. |
| Records.NewRecord | src/Model/Intervention.cpp:14-17 | Location, date and duration are stored as given. The id is 0, the status "Scheduled", and the technician and comments are empty. |
| Records.DefaultRecord | src/Model/Intervention.cpp:9-12 | The default record: empty location, date 0, duration 0, plus the constructor defaults. |
| Records.Intervention.DefaultMaintenance | src/Model/MaintenanceIntervention.cpp:7-9 | A default maintenance intervention has the base defaults. |
| Records.Intervention.NewMaintenance | src/Model/MaintenanceIntervention.cpp:11-13 | The given location, date and duration, with the fresh-record defaults. |
| Records.Intervention.DefaultEmergency | src/Model/EmergencyIntervention.cpp:9-11 | The base defaults, with priority 3. |
| Records.Intervention.NewEmergency | src/Model/EmergencyIntervention.cpp:13-19 | The given fields, with the priority clamped into 1..5. |
| Records.Intervention.GetType | src/Model/EmergencyIntervention.cpp:21-23 | The type tag follows the variant, so an emergency always answers "Emergency". |
| Records.Intervention.GetPriority | src/Model/EmergencyIntervention.cpp:25-27 | An emergency's priority is always in 1..5. |
| Records.Intervention.SetId | src/Model/Intervention.cpp:23-25 | Only the id changes. |
| Records.Intervention.SetLocation | src/Model/Intervention.cpp:31-33 | Only the location changes. |
| Records.Intervention.SetDate | src/Model/Intervention.cpp:39-41 | Only the date changes. |
| Records.Intervention.SetDuration | src/Model/Intervention.cpp:47-49 | Only the duration changes; any value is stored unvalidated. |
| Records.Intervention.SetTechnicianId | src/Model/Intervention.cpp:55-57 | Only the technician id changes. |
| Records.Intervention.SetStatus | src/Model/Intervention.cpp:63-65 | Only the status changes; any string is stored verbatim. |
| Records.Intervention.SetComments | src/Model/Intervention.cpp:71-73 | Only the comments change. |
| Records.Intervention.SetPriority | src/Model/EmergencyIntervention.cpp:29-33 | The priority becomes the clamped value, and no base field changes. |
| Staff.Technician.Default | src/Model/Technician.cpp:8-10 | All four fields are empty. |
| Staff.Technician.constructor | src/Model/Technician.cpp:12-15 | The four fields are stored as given. |
| Staff.Technician.SetId | src/Model/Technician.cpp:21-23 | Only the id changes. |
| Staff.Technician.SetName | src/Model/Technician.cpp:29-31 | Only the name changes. |
| Staff.Technician.SetSpecialty | src/Model/Technician.cpp:37-39 | Only the specialty changes. |
| Staff.Technician.SetContact | src/Model/Technician.cpp:45-47 | Only the contact changes. |
| Availability.Conflicts | src/Business/TechnicianManager.cpp:72-78 | For positive durations the test is exactly overlap of the half-open intervals in seconds. A request starting at a booking's start conflicts with it. |
| Availability.ConflictIsHalfOpenOverlap | src/Business/TechnicianManager.cpp:66-79 | The conflict test is symmetric and, for positive lengths, is exactly overlap of the half-open intervals. A booking ending where another starts does not conflict. |
| Availability.DisjointMeansNoOverlap | src/Business/TechnicianManager.cpp:52-94 | Two distinct bookings of one technician never overlap. |
| Availability.Available | src/Business/TechnicianManager.cpp:52-82 | False for an unknown technician and true for a known one without bookings. When true, no booking conflicts; with a positive duration, no conflict means available. |
| Availability.Book | src/Business/TechnicianManager.cpp:84-94 | The booking is recorded under its start instant for that technician; other technicians are untouched. |
| Availability.Unbook | src/Business/TechnicianManager.cpp:96-119 | Only a booking starting exactly at the instant is removed. The technician's entry goes once empty, and other technicians are untouched. |
| Availability.BookPreservesInvariant | src/Business/TechnicianManager.cpp:84-94 | Booking an available slot keeps the bookings pairwise non-overlapping and limited to known technicians. |
| Availability.DropPreservesInvariant | src/Business/TechnicianManager.cpp:23-37 | Removing a technician together with its bookings keeps the invariant. |
| Availability.UnbookPreservesInvariant | src/Business/TechnicianManager.cpp:96-119 | Releasing a booking keeps the invariant. |
| Availability.UnbookKeepsAvailable | src/Business/TechnicianManager.cpp:96-119 | Releasing a booking never makes an available slot unavailable. |
| Availability.DoubleBookingRejected | src/Business/TechnicianManager.cpp:66-79 | A start instant that is already booked is never available again. |
| Availability.LexLessIrreflexive | src/Business/TechnicianManager.cpp:121-142 | The directory key order is irreflexive. |
| Availability.LexLessTransitive | src/Business/TechnicianManager.cpp:121-142 | The directory key order is transitive. |
| Availability.LexLessTotal | src/Business/TechnicianManager.cpp:121-142 | The directory key order is total on distinct keys. |
| Availability.Least | src/Business/TechnicianManager.cpp:121-142 | The least key of a non-empty set, which is the next key a `std::map` walk visits. |
| Availability.TechnicianManager.constructor | src/Business/TechnicianManager.cpp:8-10 | The directory and bookings start empty. |
| Availability.TechnicianManager.AddTechnician | src/Business/TechnicianManager.cpp:12-21 | Fails with no change for a known id; otherwise stores the technician under its id. |
| Availability.TechnicianManager.RemoveTechnician | src/Business/TechnicianManager.cpp:23-37 | Fails for an unknown id; otherwise drops the directory entry and all of its bookings. |
| Availability.TechnicianManager.GetTechnician | src/Business/TechnicianManager.cpp:39-46 | The stored technician, or none for an unknown id. |
| Availability.TechnicianManager.IsTechnicianAvailable | src/Business/TechnicianManager.cpp:52-82 | The loop over the bookings computes `Available`. |
| Availability.TechnicianManager.AssignTechnician | src/Business/TechnicianManager.cpp:84-94 | Unavailable means failure with no change; otherwise the booking is recorded. The invariant is kept. |
| Availability.TechnicianManager.UnassignTechnician | src/Business/TechnicianManager.cpp:96-119 | Succeeds only for a booking starting exactly at the instant, which is removed; the invariant is kept. |
| Availability.TechnicianManager.FindAvailableTechnicians | src/Business/TechnicianManager.cpp:121-142 | Ids come in ascending key order. An id is listed iff it is known, matches a non-empty specialty and is available for the slot. |
| Decorators.NewGps | src/Decorator/GPSTrackingDecorator.cpp:10-14 | A new tracker has no samples and a frequency of at least 1, equal to the requested one when that is at least 1. |
| Decorators.WithCoordinate | src/Decorator/GPSTrackingDecorator.cpp:16-18 | Exactly one sample is appended; earlier samples and the frequency stay. |
| Decorators.LatestLocation | src/Decorator/GPSTrackingDecorator.cpp:20-28 | The last sample's position, or (0, 0) with no samples. |
| Decorators.WithFrequency | src/Decorator/GPSTrackingDecorator.cpp:30-33 | The frequency becomes max(minutes, 1); the samples stay. |
| Decorators.RecordedIsCurrent | src/Decorator/GPSTrackingDecorator.cpp:16-28 | After a sample is added it is the current location, and the earlier samples keep their order. |
| Decorators.FilenamesOf | src/Decorator/AttachmentsDecorator.cpp:39-48 | One filename per attachment, in insertion order. |
| Decorators.HasFileIffListed | src/Decorator/AttachmentsDecorator.cpp:50-55 | `hasAttachment` holds iff the filename is among the listed filenames. |
| Decorators.WithAttachment | src/Decorator/AttachmentsDecorator.cpp:14-23 | A present filename changes nothing; otherwise one entry is appended. Filenames stay unique. |
| Decorators.FirstFile | src/Decorator/AttachmentsDecorator.cpp:26-29 | Where the search stops: an entry with the name, with no earlier entry carrying it. |
| Decorators.WithoutFile | src/Decorator/AttachmentsDecorator.cpp:25-37 | An absent filename changes nothing; otherwise the result is the list with its first entry of that name cut out, every other entry keeping its order. |
| Decorators.CutKeepsUnique | src/Decorator/AttachmentsDecorator.cpp:25-37 | Cutting one entry out of a list with unique filenames keeps them unique and leaves no entry with the cut filename. |
| Decorators.WithoutFileKeepsUnique | src/Decorator/AttachmentsDecorator.cpp:25-37 | Removal keeps filenames unique and leaves no entry with that filename. |
| Decorators.AddThenRemove | src/Decorator/AttachmentsDecorator.cpp:14-37 | Adding a fresh filename and then removing it restores the original list. |
| Decorators.InterventionDecorator.constructor | src/Decorator/InterventionDecorator.cpp:7-9 | The wrapper holds the given intervention. |
| Decorators.InterventionDecorator.GetType | src/Decorator/InterventionDecorator.cpp:11-13 | The wrapper's type is the wrapped intervention's type. |
| Decorators.InterventionDecorator.GetId | src/Decorator/InterventionDecorator.cpp:19-21 | The wrapper's id is the wrapped id. |
| Decorators.InterventionDecorator.GetFields | src/Decorator/InterventionDecorator.cpp:27-69 | Every getter returns the wrapped intervention's field. |
| Decorators.InterventionDecorator.SetId | src/Decorator/InterventionDecorator.cpp:23-25 | The write goes to the wrapped intervention's id only. |
| Decorators.InterventionDecorator.SetLocation | src/Decorator/InterventionDecorator.cpp:31-33 | The write goes to the wrapped location only. |
| Decorators.InterventionDecorator.SetDate | src/Decorator/InterventionDecorator.cpp:39-41 | The write goes to the wrapped date only. |
| Decorators.InterventionDecorator.SetDuration | src/Decorator/InterventionDecorator.cpp:47-49 | The write goes to the wrapped duration only. |
| Decorators.InterventionDecorator.SetTechnicianId | src/Decorator/InterventionDecorator.cpp:55-57 | The write goes to the wrapped technician id only. |
| Decorators.InterventionDecorator.SetStatus | src/Decorator/InterventionDecorator.cpp:63-65 | The write goes to the wrapped status only. |
| Decorators.InterventionDecorator.SetComments | src/Decorator/InterventionDecorator.cpp:71-73 | The write goes to the wrapped comments only. |
| Decorators.GPSTrackingDecorator.constructor | src/Decorator/GPSTrackingDecorator.cpp:10-14 | An empty log and the clamped frequency. |
| Decorators.GPSTrackingDecorator.AddCoordinate | src/Decorator/GPSTrackingDecorator.cpp:16-18 | One sample is appended, and the wrapped intervention is unchanged. |
| Decorators.GPSTrackingDecorator.SetUpdateFrequency | src/Decorator/GPSTrackingDecorator.cpp:30-33 | The frequency becomes max(minutes, 1), and the wrapped intervention is unchanged. |
| Decorators.AttachmentsDecorator.constructor | src/Decorator/AttachmentsDecorator.cpp:10-12 | No attachments. |
| Decorators.AttachmentsDecorator.HasAttachment | src/Decorator/AttachmentsDecorator.cpp:50-55 | The scan finds the filename iff some entry has it. |
| Decorators.AttachmentsDecorator.AddAttachment | src/Decorator/AttachmentsDecorator.cpp:14-23 | Fails with no change for a present filename, otherwise appends. Filenames stay unique. |
| Decorators.AttachmentsDecorator.RemoveAttachment | src/Decorator/AttachmentsDecorator.cpp:25-37 | Fails for an absent filename, otherwise removes it. The rest keep their order and filenames stay unique. |
| Decorators.AttachmentsDecorator.GetAttachmentFilenames | src/Decorator/AttachmentsDecorator.cpp:39-48 | The filenames in insertion order. |
| Decorators.AttachmentsDecorator.GetAttachmentCount | src/Decorator/AttachmentsDecorator.cpp:57-59 | The count equals the length of the filename list. |
| Decorators.Plain | src/Facade/InterventionManager.cpp:146-175 | An undecorated stored intervention has no layers. |
| Decorators.AddLayer | src/Facade/InterventionManager.cpp:510-556 | Wrapping adds one outermost layer and keeps the record. |
| Decorators.Outermost | src/Facade/InterventionManager.cpp:558-606 | The object the stored `unique_ptr` designates is the outermost layer, or none when undecorated. |
| Decorators.WithOutermost | src/Facade/InterventionManager.cpp:558-606 | Updating the outermost decorator's state keeps the record and the inner layers. |
| Decorators.WithOutermostKeepsValid | src/Facade/InterventionManager.cpp:558-606 | That update keeps every layer well formed. |
| Decorators.Apply | src/Model/Intervention.cpp:19-73 | A setter changes only its own field and never the variant. |
| Decorators.Write | src/Decorator/InterventionDecorator.cpp:23-73 | A write through the wrappers changes the record and leaves every layer as it was. |
| Decorators.ForwardReadsBase | src/Decorator/InterventionDecorator.cpp:11-69 | Getters through the nested chain read the record, so id, type and fields are those of the undecorated intervention. |
| Decorators.ForwardWriteIsWrite | src/Decorator/InterventionDecorator.cpp:23-73 | Setters through the nested chain are writes to the record. |
| Decorators.DecoratingPreservesIdentity | src/Decorator/InterventionDecorator.cpp:7-21 | Wrapping puts the old chain inside the new wrapper and changes nothing that reads through it. |
| Factories.NewEmergencyFactory | src/Factory/EmergencyFactory.cpp:7-12 | The default priority is clamped into 1..5. |
| Factories.VariantOf | src/Factory/EmergencyFactory.cpp:18-24 | The maintenance factory makes maintenance records, and the emergency factory makes emergencies with its default priority. |
| Factories.CreateDefault | src/Factory/EmergencyFactory.cpp:14-16 | The no-argument create gives the default record of the factory's type. An emergency gets priority 3 whatever the factory's default. |
| Factories.Create | src/Factory/MaintenanceFactory.cpp:11-17 | The given location, date and duration, with the factory's type; never null. |
| Factories.CreateEmergencyIntervention | src/Factory/EmergencyFactory.cpp:26-33 | The priority is the clamped argument. |
| Factories.InterventionFactoryRegistry.constructor | src/Factory/InterventionFactoryRegistry.cpp:7-10 | The registry starts with no factories. |
| Factories.InterventionFactoryRegistry.RegisterFactory | src/Factory/InterventionFactoryRegistry.cpp:12-17 | Registering replaces any previous factory for the type and leaves every other type's lookup unchanged. |
| Factories.InterventionFactoryRegistry.GetFactory | src/Factory/InterventionFactoryRegistry.cpp:19-25 | None exactly for a type never registered. |
| Factories.InterventionFactoryRegistry.CreateIntervention | src/Factory/InterventionFactoryRegistry.cpp:27-38 | None for an unknown type; otherwise the registered factory's record with the same fields. |
| Observers.DefaultConsoleObserver | src/Observer/ConsoleObserver.cpp:9-11 | The default observer has no interests. |
| Observers.IsInterestedIn | src/Observer/ConsoleObserver.cpp:22-30 | An empty list means every event; otherwise exactly the listed ones. |
| Observers.Fanout | src/Facade/InterventionManager.cpp:57-63 | At most one delivery per observer, each of the event's type. |
| Observers.FanoutAppend | src/Facade/InterventionManager.cpp:57-63 | The fan-out over two lists is the fan-out of the first followed by that of the second, so registration order is kept. |
| Observers.FanoutReachesInterested | src/Facade/InterventionManager.cpp:57-63 | An observer is reached iff it is registered and interested in the event. |
| Observers.WithoutHandle | src/Facade/InterventionManager.cpp:28-35 | Exactly the entries with that identity are dropped; the result is never longer. |
| Observers.WithoutHandleSnoc | src/Facade/InterventionManager.cpp:28-35 | A registration added at the end survives, after the other survivors, iff its identity differs. |
| Observers.WithoutHandleAppend | src/Facade/InterventionManager.cpp:28-35 | Removal distributes over concatenation, so survivors keep their relative order and their number of copies, as a stable `remove_if` leaves them. |
| Observers.WithoutAbsentHandle | src/Facade/InterventionManager.cpp:28-35 | Removing an identity that is not registered changes nothing. |
| Facade.ConsistentUnderHigherCounter | src/Facade/InterventionManager.cpp:146-175 | Advancing the id counter keeps the facade invariant. |
| Facade.CounterIsFresh | src/Facade/InterventionManager.cpp:146-175 | The counter's value is never a stored id. |
| Facade.InsertPreserves | src/Facade/InterventionManager.cpp:146-175 | Storing a fresh record that the ledger accepted keeps the invariant. |
| Facade.DropAtKeepsOthers | src/Business/InterventionPlanner.cpp:55-62 | Dropping one position of a repeat-free list drops exactly that id. |
| Facade.EraseFromBucket | src/Business/InterventionPlanner.cpp:55-62 | Erasing a listed id from a repeat-free day list drops exactly that id. |
| Facade.DeletePreserves | src/Facade/InterventionManager.cpp:177-208 | A stored id is always removable from its day, and deleting it keeps the invariant. |
| Facade.ReschedulePreserves | src/Facade/InterventionManager.cpp:240-250 | Moving a record to a new date the ledger accepted keeps the invariant. |
| Facade.RewritePreserves | src/Facade/InterventionManager.cpp:266-298 | Replacing a record without changing its id or date keeps the invariant. |
| Facade.StoredIsValid | src/Facade/InterventionManager.cpp:351-357 | A stored record carries its own id and well-formed layers. |
| Facade.Kept | src/Facade/InterventionManager.cpp:224-237 | An empty location or a zero duration means "keep". Nothing else changes. |
| Facade.NeedsRescheduling | src/Facade/InterventionManager.cpp:229-237 | A reschedule is needed iff the target date or the target duration differs from the stored one. |
| Facade.TargetDate | src/Facade/InterventionManager.cpp:241 | The requested date, or the stored one when 0 is passed; it differs from the stored date only for a non-zero request. |
| Facade.TargetDuration | src/Facade/InterventionManager.cpp:242 | The requested duration, or the stored one when 0 is passed; it differs from the stored duration only for a non-zero request. |
| Facade.Rebook | src/Facade/InterventionManager.cpp:252-257 | When the new slot is free, the technician's bookings become the old ones without the old start, plus the new start with the new duration. When it is not, the old booking is still released. Other technicians are untouched. |
| Facade.Reassign | src/Facade/InterventionManager.cpp:320-333 | The new technician's bookings become its old ones with the date set to the duration, including when it is already the current technician. Without a previous technician this is a plain booking. A different previous technician keeps exactly its old bookings minus the one at that date, with their durations. Every other technician's bookings are unchanged. |
| Facade.Present | src/Facade/InterventionManager.cpp:359-374 | Never more records than ids. |
| Facade.PresentAll | src/Facade/InterventionManager.cpp:359-374 | When every id is stored, the k-th record is the k-th id's. |
| Facade.BucketIsStored | src/Facade/InterventionManager.cpp:359-374 | Every id listed under a day is stored, with a date on that day. |
| Facade.OutermostGps | src/Facade/InterventionManager.cpp:558-569 | The cast to a GPS decorator succeeds iff the outermost layer is a GPS layer. |
| Facade.OutermostAttachments | src/Facade/InterventionManager.cpp:582-593 | The cast to an attachments decorator succeeds iff the outermost layer is an attachments layer. |
| Facade.InterventionManager.constructor | src/Facade/InterventionManager.cpp:18-22 | Nothing stored, no observers, the counter at 1, and empty ledgers. |
| Facade.InterventionManager.AddObserver | src/Facade/InterventionManager.cpp:24-26 | The observer is appended. |
| Facade.InterventionManager.RemoveObserver | src/Facade/InterventionManager.cpp:28-35 | Exactly the entries with that identity are dropped, and the rest keep their order. |
| Facade.InterventionManager.NotifyObservers | src/Facade/InterventionManager.cpp:57-63 | One delivery per interested observer, in registration order. |
| Facade.InterventionManager.AddTechnician | src/Facade/InterventionManager.cpp:37-46 | The directory's add, with an event only on success. |
| Facade.InterventionManager.CreateIntervention | src/Facade/InterventionManager.cpp:146-175 | An unknown type changes nothing and gives -1. A full day gives -1 and stores nothing, but the counter has advanced. Otherwise the fresh id is listed on its day and its record is stored, in that order, with the invariant kept. |
| Facade.InterventionManager.DeleteIntervention | src/Facade/InterventionManager.cpp:177-208 | Fails for an unknown id. Otherwise the record, its day entry and the assigned technician's booking at its date all go. |
| Facade.InterventionManager.ModifyIntervention | src/Facade/InterventionManager.cpp:210-264 | Fails for an unknown id. Location and duration are written first. A reschedule is attempted when the date or the duration changes. If the reschedule fails, the date and ledger are unchanged and the written fields stay. On success, the date and the technician's booking move. A "modification" event follows every success. |
| Facade.InterventionManager.WriteFields | src/Facade/InterventionManager.cpp:220-237 | The "keep" writes of location and duration, and whether a reschedule is needed. |
| Facade.InterventionManager.MoveIntervention | src/Facade/InterventionManager.cpp:240-258 | The ledger reschedule. On success, the date update and the unchecked move of the booking. |
| Facade.InterventionManager.MoveBooking | src/Facade/InterventionManager.cpp:252-257 | Unassign at the old start, then assign at the new one if free, ignoring the result. |
| Facade.InterventionManager.ChangeInterventionStatus | src/Facade/InterventionManager.cpp:266-298 | Fails for an unknown id. Otherwise status and comments are written (comments only when non-empty), with nothing else changed, and a "status_change" event follows. |
| Facade.InterventionManager.AssignTechnician | src/Facade/InterventionManager.cpp:300-349 | Fails with no change for an unknown intervention, an unknown technician or a busy one. Otherwise the previous booking is released, the new one recorded and the technician id set, and a "technician_assignment" event follows. |
| Facade.InterventionManager.SwapBooking | src/Facade/InterventionManager.cpp:320-333 | The previous technician's booking is released and the new one recorded. |
| Facade.InterventionManager.GetInterventionsForDay | src/Facade/InterventionManager.cpp:359-374 | The stored records of the day's ids, in booking order. None is skipped, and each is dated on that day. |
| Facade.InterventionManager.GetInterventionCountsForMonth | src/Facade/InterventionManager.cpp:376-378 | Keys are exactly days 1..N of the month; a day with a bucket maps to the bucket's size; a nonzero count only comes from a day that has a bucket. |
| Facade.InterventionManager.OptimizeSchedule | src/Facade/InterventionManager.cpp:401-417 | Always true, with an "optimization" event and nothing rescheduled. |
| Facade.InterventionManager.DecorateWithGPS | src/Facade/InterventionManager.cpp:510-532 | Fails for an unknown id. Otherwise a GPS layer with frequency 15 and no samples goes outermost, the record is unchanged, and a "decoration" event follows. |
| Facade.InterventionManager.DecorateWithAttachments | src/Facade/InterventionManager.cpp:534-556 | Fails for an unknown id. Otherwise an empty attachments layer goes outermost, the record is unchanged, and a "decoration" event follows. |
| Facade.InterventionManager.AddGPSCoordinate | src/Facade/InterventionManager.cpp:558-580 | Succeeds iff the id is stored and its outermost layer is GPS; then one sample is appended to that layer and a "gps_update" event follows. |
| Facade.InterventionManager.AddAttachment | src/Facade/InterventionManager.cpp:582-606 | Succeeds iff the outermost layer is an attachments layer without that filename; then the attachment is appended and an "attachment_added" event follows. |
| Facade.InterventionManager.GetIntervention | src/Facade/InterventionManager.cpp:351-357 | The stored record read through its wrappers, or none for an unknown id. |

## Left out

- Interactive CLI, login, the access-checking proxy, the notification system, and the log and technician-notification observers are not part of this model. They are terminal, file and simulated e-mail I/O.
- `ConsoleObserver::notify` is an output sink. The facade records each delivery (observer, event type) in `delivered` instead, and message texts are not modelled.
- `notifyTechnician` calls in the facade are sends to that sink and are not modelled.
- `getInfo` and the summary, export and `formatDate` renderings are text produced through `strftime` and streams; they are not modelled.
- `initializeWithSampleData` is not modelled because it reads the wall clock.
- Saving and loading are not modelled; they are declared in the headers without a definition.
- The wall clock is not modelled: the GPS and attachment timestamps that the source takes from `std::time` are explicit `now` parameters.
- `localtime` and `normalizeToDay` are modelled in a fixed zone whose days are 86400 seconds long. Daylight-saving shifts and the host time zone are not modelled.
- `time_t` and `int` overflow are not modelled; Dafny integers are unbounded.
- GPS latitude and longitude are C++ doubles, modelled as `real`. They are only stored, never computed with.
- Allocation failure is not modelled. The `try`/`catch` around `make_unique` in the decorate methods cannot fire in the model.
- The factory registry's process-wide singleton (`getInstance`) is modelled as an explicit registry object handed to the facade.
- Ownership through `unique_ptr` is not modelled. Decorator chains are values with no aliasing, and `unique_ptr` moves are value replacement.
- Facade.InterventionManager.ModifyIntervention: the technician re-booking after a move is modelled as the source writes it. The old booking is released, and the new one is made only when free. Its result is ignored, so a move can leave an assigned technician without a booking.
- Facade.InterventionManager.ModifyIntervention: there is no rollback. A failed reschedule keeps the already-written location and duration, as the code does.
- Facade.InterventionManager.ModifyIntervention: a duration-only change reschedules the intervention onto its own day. On a day holding ten ids that fails, because the capacity check counts the intervention itself.
- Availability.Available: an unknown technician is unavailable, as the code does.
- Decorators.GPSTrackingDecorator: `getCurrentLocation`, `getUpdateFrequency` and `getTrackingData` are plain reads of the state. Their meaning is stated on `LatestLocation`, `WithFrequency` and `RecordedIsCurrent`.
