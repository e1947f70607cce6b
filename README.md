# Lecture slot booking: a verified model of the booking core

The application lets teachers book lecture slots and lets admins manage them. It is a Flask app
over three SQLite tables: `user`, `slot` and `booking`. This project models its core in Dafny and
proves properties of that model:

- the bulk slot generator, both the preview and the confirm step;
- the daily sweep that deletes slots dated before today, which also runs when an admin logs in;
- registration with its unique-username check, and login;
- booking a slot and cancelling a booking;
- switching a slot's availability and deleting a slot.

Files:

- `wrappers.dfy`: `Option` and `Result`.
- `calendar.dfy`: dates as proleptic Gregorian ordinals (0001-01-01 is 1, 9999-12-31 is
  `MaxOrdinal`), weekdays and their lower-case English names, times as minutes since midnight, and
  the point where Python's `datetime` addition raises `OverflowError`.
- `models.dfy`: the three records of `application/models.py`, the default of `available`, the
  `is_booked` property, and the unique columns.
- `bulk_slots.dfy`: the reference definition of what the generator yields, and the preview
  handler's loops proved against it.
- `app.dfy`: class `Store`. It holds the three tables as maps from primary key to record, plus
  the next free key of each table. Every handler is a method of `Store`, and every handler keeps the
  invariant `Valid()`:
  - keys lie below their counters;
  - usernames and emails are unique;
  - no two slots share (date, start, end);
  - a slot has at most one booking;
  - every booking belongs to an existing user.

The confirm step is specified as `AddAll`, a fold of `AddCandidate` over the candidates in the
generator's order. A candidate is skipped when an identical slot exists. Otherwise it is added as
an available slot under a fresh key. The method's two loops are proved against tail-recursive folds
(`DayFold`, `DatesFold`), and lemmas connect those folds to `AddAll`.

A request whose commit does not happen leaves the store unchanged. This covers two cases: a
NOT NULL or UNIQUE constraint that fails, which the commit itself raises (app.py:91, app.py:225),
and an `OverflowError` raised by the date arithmetic before the commit is reached.

`add_event_to_calendar` may return None, but `event_id` is declared NOT NULL
(`application/models.py:34`), so that commit fails and nothing is stored. `Store.BookSlot`
returns `IntegrityError` in that case.

## Model

| member | source | states |
|---|---|---|
| `Models.CreateSlot` | application/models.py:16-22 | a new slot keeps the given date and times; `available` is True unless False is given explicitly (column default) |
| `Models.IsBookedIff` | application/models.py:24-26 | `is_booked` holds exactly when some booking references the slot |
| `Models.BookedSlotHasOneBooking` | app.py:211-213 | when no two bookings share a slot (which the booking guard keeps when requests do not overlap), a booked slot has exactly one booking |
| `BulkSlots.CandidateDatesExactly` | app.py:322-329 | the candidate dates are exactly the dates in [start_date, end_date] whose weekday name is not excluded; they are strictly ascending; there are none when end_date < start_date |
| `BulkSlots.CollectDates` | app.py:322-329 | the preview's date loop returns the candidate dates, or `Overflow` exactly when it would step past 9999-12-31 |
| `BulkSlots.SpansCount` | app.py:337-344 | from a cursor, the slot loop cuts n slots with n*duration <= end-cursor < (n+1)*duration: (end-cursor)/duration of them, or none when end < cursor |
| `BulkSlots.SpanAt` | app.py:337-344 | the k-th slot runs from cursor + k*duration to cursor + (k+1)*duration |
| `BulkSlots.SpansBounded` | app.py:337-344 | every slot starts at or after the cursor, lasts exactly `duration` and ends by end_time |
| `BulkSlots.SpansContiguous` | app.py:337-344 | each slot ends where the next one starts |
| `BulkSlots.SpansAscending` | app.py:337-344 | the slots of a date do not overlap and come in ascending order |
| `BulkSlots.DaySlotsShape` | app.py:332-344 | one date's slots: their count is (end_time-start_time)/duration (0 if negative); the k-th starts at start_time + k*duration; all lie within the window; they are contiguous |
| `BulkSlots.NoSlotsWhenDurationExceedsWindow` | app.py:337 | a duration longer than the daily window yields no slot and no candidate |
| `BulkSlots.FinalCursorIsEnd` | app.py:337-344 | when the slot loop test fails, the cursor plus duration is past end_time, and the cursor never moves backwards |
| `BulkSlots.FlattenThroughStep` | app.py:395-423 | one step of the date loop adds that date's slots to the candidates, or nothing for an excluded date |
| `BulkSlots.OverflowOnDate` | app.py:397-400 | an overflow on a date the loop reaches and keeps is an overflow of the request |
| `BulkSlots.NoOverflowOnDates` | app.py:395-400 | if no retained date in range overflows, the request does not overflow |
| `BulkSlots.CutSlots` | app.py:334-344 | the preview's slot loop for one date returns that date's slots, or `Overflow` exactly when its final test overflows |
| `BulkSlots.FlattenLength` | app.py:332-349 | there are as many candidates as slots listed in the preview |
| `BulkSlots.PlansForExactly` | app.py:332-349 | the preview lists each candidate date once, in order, with that date's slots, and leaves out dates with no slot |
| `BulkSlots.TotalSlotsOfPlans` | app.py:332-349 | the preview lists (number of dates) * (slots per date) slots |
| `BulkSlots.FlattenOfPlans` | app.py:332-349 | a (date, start, end) triple is listed exactly when its date is one of the dates and (start, end) is one of that date's slots |
| `BulkSlots.CandidatesExactly` | app.py:322-344 | a triple is a candidate exactly when its date is a candidate date and it is one of that date's slots; so start_time <= start, end = start + duration, end <= end_time, and the weekday is not excluded |
| `BulkSlots.AppendAscending` | app.py:395-421 | joining two ascending runs, each element of the first before each of the second, gives an ascending run |
| `BulkSlots.DayPeriodsAscending` | app.py:400-421 | one date's candidates are on that date and in ascending order |
| `BulkSlots.FlattenAscending` | app.py:395-421 | for ascending dates the candidates come in ascending (date, start) order |
| `BulkSlots.CandidatesAscending` | app.py:395-421 | the candidates are in ascending order and pairwise distinct |
| `BulkSlots.PreviewCounts` | app.py:332-349 | a successful preview lists only candidate dates that have slots; its slot total equals the number of candidates, which is (number of candidate dates) * ((end_time-start_time)/duration), or 0 |
| `BulkSlots.PlansCount` | app.py:332-349 | the slots listed for the candidate dates number as many as the candidates, and (number of candidate dates) * ((end_time-start_time)/duration), or 0 |
| `BulkSlots.PreviewBulk` | app.py:294-349 | the preview handler: `NotAdmin` for non-admins, otherwise exactly `Preview`: `InvalidDuration`, `Overflow`, or the dates that have slots, each with its slots |
| `BulkSlots.LoopAsWritten` | app.py:337-344 | the slot loop as written, for any integer duration and a bounded number of iterations; each slot it yields lasts `duration` and ends by end_time |
| `BulkSlots.ZeroDurationNeverStops` | app.py:337 | with duration 0 and start_time <= end_time the loop as written never stops, whatever the bound |
| `BulkSlots.LoopAsWrittenAgrees` | app.py:337-344 | for a positive duration the loop as written yields the reference slots |
| `BulkSlots.TwoDayExample` | app.py:322-349 | 2024-01-01..2024-01-02 from 09:00 to 11:00 in 60-minute slots gives 09:00-10:00 and 10:00-11:00 on both dates; excluding monday leaves only the Tuesday |
| `App.NewSlot` | app.py:411-417 | the slot confirm adds for a candidate has the candidate's date and times and is available |
| `App.PeriodsInsert` | app.py:411-418 | adding a slot under a fresh key adds exactly its (date, start, end) to the triples present |
| `App.AddAllAppend` | app.py:395-423 | confirming xs then ys is confirming xs + ys |
| `App.AddAllEffect` | app.py:395-423 | confirm leaves existing slots unchanged. It adds slots only under fresh keys, each available, each for a candidate absent before. Afterwards the triples present are the old ones plus all candidates. created+skipped grows by the number of candidates, and the key counter by `created` |
| `App.AddAllCounts` | app.py:403-418 | confirm keeps keys below the counter, moves the counter by `created`, counts every candidate once, and leaves every existing slot as it was |
| `App.AddAllPeriods` | app.py:403-418 | after confirm the triples present are those present before plus every candidate |
| `App.AddAllNew` | app.py:403-418 | every slot under a new key is available, lies between the old and new counter, and is for a candidate that was absent before |
| `App.AddCandidateEffect` | app.py:403-418 | one candidate: an identical slot means a skip and no change; otherwise exactly one available slot for it under the next key |
| `App.AddAllKeepsUnique` | app.py:403-418 | confirm never creates a second slot with the same (date, start, end) |
| `App.AddAllCreatedCount` | app.py:403-418 | for distinct candidates, `created_count` is the number of candidates that were absent before |
| `App.AddAllWhenPresent` | app.py:403-410 | when every candidate is already present, confirm changes nothing and counts them all as skipped |
| `App.ConfirmIdempotent` | app.py:392-425 | a second confirm of the same request creates nothing: the table and key counter stay the same, and every candidate is skipped |
| `App.CountAbsentBounds` | app.py:403-418 | created_count is at most the number of candidates, and is 0 exactly when all were present |
| `App.DayFoldIsAddAll` | app.py:400-421 | the slot loop of one date confirms exactly that date's candidates, in order |
| `App.DatesFoldStep` | app.py:395-423 | one date of the confirm loop extends the confirmed prefix by that date's slot loop |
| `App.DatesFoldFrom` | app.py:395-423 | from every date the loop reaches, finishing the loop confirms all the candidates |
| `App.DatesFoldUnfold` | app.py:395-421 | one date of the confirm loop: the slot loop for a retained date, nothing for an excluded one, then the rest of the dates |
| `App.DatesFoldIsAddAll` | app.py:395-423 | the whole date loop confirms exactly the request's candidates, in order |
| `App.Store.constructor` | application/models.py:6-36 | an empty store satisfies the invariants |
| `App.Store.SweepExpired` | app.py:38-45 | the sweep deletes exactly the slots dated before today: none of those remain; every later slot remains unchanged; `deleted` is how many went; the invariants are kept |
| `App.Store.DeleteEach` | app.py:42-43 | deleting the selected slots one by one removes exactly those keys |
| `App.Store.SweepTwice` | app.py:38-45 | a second sweep on the same day deletes nothing |
| `App.Store.Login` | app.py:98-109 | logs in exactly when some user has that username and password; the role decides the dashboard; an admin login runs the sweep, which no other outcome does |
| `App.Store.Register` | app.py:74-96 | `MissingFields` when username or password is empty; `UsernameTaken` when the username exists; `IntegrityError` when email or a name is missing or the email is taken; otherwise adds exactly one teacher under a fresh key; usernames and emails stay unique |
| `App.Store.BookSlot` | app.py:208-228 | `NotFound` for a missing slot and `Refused` when the slot is booked or unavailable. `IntegrityError` when the calendar returned no event id. Otherwise it adds exactly one booking, the only one for that slot, with the description defaulting to "None". Every other outcome changes nothing |
| `App.Store.DeleteBooking` | app.py:240-255 | a missing booking is `NotFound`; otherwise exactly that booking is removed, whatever the calendar's delete did |
| `App.Store.SetSlotAvailability` | app.py:186-197 | `Denied` for non-admins, `NotFound` for a missing slot; otherwise only that slot's `available` changes, to (field == "true") |
| `App.Store.DeleteSlot` | app.py:474-483 | `Denied` for non-admins, `NotFound` for a missing slot; otherwise exactly that slot is removed; bookings are untouched |
| `App.Store.ConfirmDay` | app.py:397-421 | the confirm slot loop of one date performs that date's fold, or reports `Overflow` exactly when its final test overflows |
| `App.Store.ConfirmDate` | app.py:396-421 | one date of the confirm loop: an overflow there is an overflow of the request; otherwise no retained date so far overflowed, and the rest of the loop completes the same fold |
| `App.Store.ConfirmDates` | app.py:392-423 | the confirm date loop performs `AddAll` over exactly the preview's candidates, or reports an overflow exactly when the preview does |
| `App.Store.ConfirmBulk` | app.py:364-425 | The confirm handler. Non-admins get `NotAdmin`. A non-positive duration is rejected with `InvalidDuration`, a check the source handler lacks (the corrected half of the Findings row, as in `BulkSlots.PreviewBulk`). When the preview fails, confirm fails the same way and changes nothing. Otherwise: the table is `AddAll` of the candidates; every candidate is present; existing slots are unchanged; new slots are available; `created` is the number of candidates absent before; created+skipped equals the preview's slot total |

## Left out

- Flask plumbing: routing, templates, flash messages, sessions and the login manager. The logged-in
  user is a parameter: `userId` for booking, `actor: Role` for the admin checks.
- The Google Calendar client (app.py:431-472). Creating an event is an `Option<string>` parameter of
  `BookSlot`, where None means the call failed. Deleting an event is a `RemoteOutcome` parameter
  that has no local effect.
- Concurrency. Every handler and every sweep job is modelled as running alone and to completion.
  The source runs Flask's development server, threaded by default (app.py:486), and two scheduler jobs that fire at the same
  moment (app.py:54, app.py:58). The booking guard (app.py:212-225) and the duplicate check of
  confirm (app.py:404-418) are a check followed by an insert, with no lock and no unique index,
  so `OneBookingPerSlot` and `UniquePeriods` hold only when requests are serialized, and
  `SweepTwice` describes two sweeps run one after the other.
- The background scheduler (app.py:47-59). At import time it only counts old slots; if there are
  any it schedules a midnight cron job, and it always schedules a second one. So two jobs may each
  run the sweep at 00:00; run one after the other, the second deletes nothing (`SweepTwice`). The sweep itself is
  `SweepExpired`, with today's date as a parameter.
- Parsing with strptime and formatting with strftime, and the date-name filter. Requests arrive
  parsed (`Parsed`). A malformed field, or a failed `int(duration)`, redirects before any state
  changes, so it is not modelled.
- What SQLAlchemy does to a deleted slot's bookings: the `Booking.slot` backref has no delete
  cascade (application/models.py:36), so their `slot_id` is set to NULL. `DeleteSlot` and
  `SweepExpired` leave the booking table as it is.
- Key allocation: SQLite may reuse the largest deleted rowid; the model always takes a fresh key
  from a counter.
- DeleteBooking: the rollback after a failed local delete and commit is not modelled; a storage
  failure is not an input.
- `BookSlot` on a refused slot renders `description`, which was never bound on that path, so the
  handler raises (app.py:229) after its checks. The store is unchanged and the model returns
  `Refused`. A missing slot aborts earlier with a 404 in `get_or_404` (app.py:211): `NotFound`.
- The preview reads excluded days from the form key `exclude_days`, and confirm reads `excluded[]`.
  The model assumes both carry the same list.
- Requests that reach no handler, such as a GET to a POST-only route, are not modelled.
- `BulkSlots.LoopAsWritten`: it is modelled with an iteration bound, because the loop as written may
  not terminate. A negative duration, which makes the cursor move backwards until datetime
  underflows, is represented only by that bound.
- The `role` column is a free string; the model admits only "teacher" and "admin" (`Role`).
- startup.py and config.py (configuration and table creation) are not part of this model.

## Findings

| source | as written | input that shows it | evidently intended | confidence | as-written member | corrected member |
|---|---|---|---|---|---|---|
| app.py:307-310 | the duration is parsed with `int()` but its sign is never checked, so the slot loops at app.py:337 and app.py:400 advance by `duration` minutes | duration = 0 with start_time <= end_time: the loop test stays true and the request never finishes | a non-positive duration is rejected before any slot is cut | not executed | `BulkSlots.ZeroDurationNeverStops` | `BulkSlots.PreviewBulk` |
