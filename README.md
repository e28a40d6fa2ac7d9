# Car-wash scheduling core, modelled in Dafny

This project models the scheduling logic of the Berezivka car-wash Telegram
bot (`CarWashBerezivka.py`): one wash bay, bookings of wash programs of a
given duration, a daily working window from 09:00 to 21:00 and a one-minute
buffer (`BUFFER_MINUTES = 1`) around every booking.

- **Clock** (`clock.dfy`): instants are local time in microseconds (the
  precision of the bot's timestamps), dates are day numbers; combining a
  date with a time of day and the reschedule rule of `/edit`.
- **Durations** (`durations.dfy`): the `h:m:s` text of `/add_program` and
  `/edit_program`, split on `:` and turned into whole minutes
  `h * 60 + m + s // 60`.
- **Bookings** (`bookings.dfy`): booking rows, the availability query's
  LEFT JOIN with the program catalog and its date filter, the effective
  interval of a booking by status, and the buffered conflict rule.
- **Availability** (`availability.dfy`): `get_available_hours` as an
  imperative method (a loop over the hourly candidates with a nested loop
  over the booked rows that stops at the first conflict), proved equal to a
  specification function, about which soundness, completeness, ordering and
  a worked example are proved.
- **Lifecycle** (`lifecycle.dfy`): the bookings table as a class holding a
  map from id to booking, with `/start_wash`, `/finish_wash` and `/edit` as
  methods returning an outcome, each tied to a pure transition function.
- **Notifier** (`notifier.dfy`): after a wash finishes, the choice of the
  next customer (`ORDER BY booking_datetime, id LIMIT 1` over scheduled
  bookings after the finished one's nominal time, same date only) and the
  delay before they are told.

The current time, the database rows and the catalog (`program id ->
duration in minutes`) are parameters. The model follows the code as written:
a program of zero or negative
duration is not refused by the slot search, `/start_wash` overwrites an
actual start that is already there, and `/edit` may set any status from any
status without clearing the actual times (`ReopenKeepsStaleTimes` shows the
resulting state).

## Model

| member | source | states |
|---|---|---|
| `Clock.Combine` | CarWashBerezivka.py:828-833 | the combined instant lies on the given date at the given time of day |
| `Clock.CombineSplit` | CarWashBerezivka.py:831-833 | splitting an instant into date and time of day and combining them gives it back |
| `Clock.Rescheduled` | CarWashBerezivka.py:825-835 | after an edit the date is the new date or else the old one, and the time of day is the new time or else the old one |
| `Durations.DurationMinutes` | CarWashBerezivka.py:547-548 | the result is the whole number of minutes in h hours, m minutes and s seconds: `60 * d <= total seconds < 60 * d + 60` |
| `Durations.ParseDuration` | CarWashBerezivka.py:546-552 | a duration is accepted exactly when the text splits on `:` into three integer fields, and its value is then the minutes conversion of those fields |
| `Durations.ParseFormatHms` | CarWashBerezivka.py:589-591 | a duration written as `h:m:s` parses to its length in whole minutes |
| `Durations.MinutesRoundTrip` | CarWashBerezivka.py:547-548 | d minutes written as `d/60 : d%60 : 0` parse back to d |
| `Bookings.JoinedDuration` | CarWashBerezivka.py:205-207 | the joined duration is present exactly when the booking has a program that is still in the catalog, and is then that program's duration |
| `Bookings.BookedOn` | CarWashBerezivka.py:203-211 | the availability query: the bookings of the table whose nominal date is the requested date, each joined with its program's duration; every returned row lies on that date and there are no more rows than bookings |
| `Bookings.BookedOnMembers` | CarWashBerezivka.py:203-211 | the availability query returns exactly the joined rows of the bookings whose nominal date is the requested date, whatever their status |
| `Bookings.Effective` | CarWashBerezivka.py:228-233 | a scheduled booking occupies its nominal slot; a started or finished one starts at its actual start (else nominal) and ends at its actual end when known; without an actual end the interval is as long as the program (0 when the program is gone) |
| `Bookings.ConflictMeansTooClose` | CarWashBerezivka.py:235-241 | for non-empty intervals, a slot is free of a booking exactly when every instant of it is more than BUFFER away from every instant of the booking's effective interval |
| `Bookings.Conflicts` | CarWashBerezivka.py:236-241 | whether a candidate slot meets a booking's effective interval widened by BUFFER on both sides (strict non-overlap test); the answer is the same with the roles of slot and booking swapped |
| `Availability.SlotAt` | CarWashBerezivka.py:197-200 | the candidate for hour h lies on the requested date at exactly h o'clock |
| `Availability.MinAllowedStart` | CarWashBerezivka.py:190-194 | the earliest offered start is never before 09:00, and on the current day never before now + BUFFER; it is one of those two |
| `Availability.GetAvailableHours` | CarWashBerezivka.py:176-246 | the loop returns exactly the specification's list of starts; an unknown program yields no starts |
| `Availability.AvailableStartsSound` | CarWashBerezivka.py:213-244 | every offered start is a whole hour from 09:00 to 20:00 of the date, not before the minimum allowed start (now + BUFFER on the current day), ends by 21:00, and does not conflict with any booking nominally on that date |
| `Availability.AvailableStartsComplete` | CarWashBerezivka.py:213-244 | every whole hour in the window that is late enough, ends by 21:00 and conflicts with no booking of the date is offered, so a single conflicting booking is what excludes a start |
| `Availability.AvailableStartsAscending` | CarWashBerezivka.py:197-244 | the offered starts are strictly ascending |
| `Availability.OneBookingAtTen` | CarWashBerezivka.py:226-243 | with a 60-minute booking scheduled at 10:00 on another day than today, a 60-minute program is offered exactly 12:00 through 20:00 |
| `Lifecycle.StartTransition` | CarWashBerezivka.py:412-429 | starting is refused as already started or already finished exactly in those states; otherwise the booking is in progress with actual start now, nothing else changes, the status moves forward and the lifecycle invariant is kept |
| `Lifecycle.FinishTransition` | CarWashBerezivka.py:444-464 | finishing is refused exactly when already finished; otherwise the booking is finished with actual end now and actual start kept or set to now, nothing else changes, and the lifecycle invariant holds |
| `Lifecycle.EditTransition` | CarWashBerezivka.py:821-845 | an edit is refused exactly when it has nothing to change and succeeds whenever a date, time or status is given, from any status to any status; the date and time of day are the new ones or the old ones, the status is the new one or the old one with no transition check, and the actual times are untouched |
| `Lifecycle.FinishTwice` | CarWashBerezivka.py:449-464 | a second finish is refused, so the actual end is the time of the first finish |
| `Lifecycle.NoStartAfterFinish` | CarWashBerezivka.py:417-423 | a finished booking cannot be started again |
| `Lifecycle.StartThenFinish` | CarWashBerezivka.py:426-464 | a wash started at t0 and finished at t1 records actual start t0 and actual end t1 and keeps its nominal time |
| `Lifecycle.ReopenKeepsStaleTimes` | CarWashBerezivka.py:840-842 | forcing a finished booking back to scheduled leaves its actual times, breaking the lifecycle invariant, and a later start keeps the stale actual end |
| `Lifecycle.BookingTable.StartWash` | CarWashBerezivka.py:400-430 | a missing booking is reported and nothing changes; otherwise the table changes exactly as the start transition says, or not at all when it is refused; ids stay keys and the lifecycle invariant is kept |
| `Lifecycle.BookingTable.FinishWash` | CarWashBerezivka.py:432-465 | a missing booking is reported and nothing changes; otherwise the table changes exactly as the finish transition says, or not at all when it is refused; the lifecycle invariant is kept |
| `Lifecycle.BookingTable.Edit` | CarWashBerezivka.py:770-851 | a missing booking is reported first, an edit with nothing to change next; otherwise only that booking changes, as the edit transition says |
| `Notifier.FindById` | CarWashBerezivka.py:130-134 | the lookup finds the first row with the id, or none exactly when no row has it |
| `Notifier.NextInLine` | CarWashBerezivka.py:136-148 | the chosen booking is scheduled, nominally after the finished one, and first by (nominal time, id) among all such rows; there is none exactly when no row qualifies |
| `Notifier.NotifyNext` | CarWashBerezivka.py:129-156 | nothing is scheduled exactly when the finished booking is gone, nobody is waiting after it, or the next booking is on another date; otherwise the next customer is told at the later of now and the finished booking's nominal time + BUFFER, with a non-negative delay |
| `Notifier.NotifyIgnoresActualTimes` | CarWashBerezivka.py:150-156 | who is told and when does not depend on any booking's actual start or end |
| `Notifier.FinishedEarlyTellsNextAtOnce` | CarWashBerezivka.py:154-156 | a 10:00 wash finished at 10:45 with the next booking at 11:00 tells the next customer at once, since the notification time is 10:01 |

## Left out

- The Telegram layer: command handlers' argument parsing (`split`, `isdigit`), the administrator check of `/start_wash`, `/finish_wash` and the program commands, keyboards, replies and every message text, including formatting the offered starts as `%H:%M` (the model returns the start instants).
- The database: the connection pool, SQL execution and schema creation; query results are passed in as sequences of rows and the catalog as a map.
- Reading the clock and parsing dates and times with `strptime`: `now`, dates and times of day are integer parameters.
- The deferred task of the notifier (`asyncio.create_task`, `sleep`) and message delivery (`send_notify`): only the chosen booking and the delay are modelled; the delay is in microseconds where the source uses float seconds.
- `Lifecycle.BookingTable.FinishWash` does not itself call the notifier; `Notifier.NotifyNext` models that follow-up over the table's rows as a sequence.
- Concurrency: the read-then-update of start, finish and edit, and the read-then-insert race of booking creation (`process_booking`), are modelled as single atomic steps; the per-user booking wizard state is not modelled.
- `/edit` (CarWashBerezivka.py:761) has no administrator check in the source, so any chat user may reschedule a booking or force its status; the model does not model who may call `Lifecycle.BookingTable.Edit`.
- Booking creation itself (`process_booking`), cancellation by the administrator, statistics, administrator and user registration: they hold no scheduling logic beyond the slot search.
- Booking fields that scheduling never reads (user id, user name, phone, car number) and program prices (floating point).
- Durations.ParseDuration: accepts an optional sign and ASCII digits per field; Python's `int` also accepts surrounding whitespace, underscores between digits and non-ASCII decimal digits, which the model rejects.
- Python's `datetime` range limits (years 1 to 9999) are not modelled: instants are unbounded integers.
