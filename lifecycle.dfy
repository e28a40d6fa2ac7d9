/**
 * The booking lifecycle: scheduled -> in_progress -> finished, driven by the
 * administrator's /start_wash and /finish_wash commands, plus the /edit
 * command that moves a booking or forces its status.
 */
module Lifecycle {
  import opened Wrappers
  import opened Clock
  import opened Bookings

  datatype Error = NotFound | AlreadyStarted | AlreadyFinished | NothingToChange

  datatype Result<T> = Ok(value: T) | Err(error: Error)

  /** What a command reports: success, or the reason it changed nothing. */
  datatype Outcome = Done | Failed(error: Error)

  /** Position of a status in the intended order scheduled < in_progress < finished. */
  function Rank(s: Status): int {
    match s
    case Scheduled => 0
    case InProgress => 1
    case Finished => 2
  }

  /**
   * /start_wash on an existing booking: refused once the wash has started or
   * finished; otherwise the booking is in progress from `now`, whatever
   * actual start it had, and nothing else about it changes.
   */
  function StartTransition(b: Booking, now: Instant): (r: Result<Booking>)
    ensures r == Err(AlreadyStarted) <==> b.status == InProgress
    ensures r == Err(AlreadyFinished) <==> b.status == Finished
    ensures r.Ok? <==> b.status == Scheduled
    ensures r.Ok? ==> r.value.status == InProgress && r.value.actualStart == Some(now)
    ensures r.Ok? ==> (r.value.id == b.id && r.value.programId == b.programId
      && r.value.nominal == b.nominal && r.value.actualEnd == b.actualEnd)
    ensures r.Ok? ==> Rank(r.value.status) > Rank(b.status)
    ensures r.Ok? && WellFormed(b) ==> WellFormed(r.value)
  {
    match b.status
    case InProgress => Err(AlreadyStarted)
    case Finished => Err(AlreadyFinished)
    case Scheduled => Ok(b.(status := InProgress, actualStart := Some(now)))
  }

  /**
   * /finish_wash on an existing booking: refused once finished; otherwise
   * the booking is finished at `now`, keeps an actual start it already had
   * (a booking never started gets `now` as its start too), and nothing else
   * about it changes.
   */
  function FinishTransition(b: Booking, now: Instant): (r: Result<Booking>)
    ensures r == Err(AlreadyFinished) <==> b.status == Finished
    ensures r.Ok? <==> b.status != Finished
    ensures r.Ok? ==> r.value.status == Finished && r.value.actualEnd == Some(now)
    ensures r.Ok? ==> r.value.actualStart == Some(b.actualStart.GetOr(now))
    ensures r.Ok? ==> r.value.id == b.id && r.value.programId == b.programId && r.value.nominal == b.nominal
    ensures r.Ok? ==> Rank(r.value.status) > Rank(b.status)
    ensures r.Ok? ==> WellFormed(r.value)
  {
    if b.status == Finished then Err(AlreadyFinished)
    else Ok(b.(status := Finished, actualStart := Some(b.actualStart.GetOr(now)), actualEnd := Some(now)))
  }

  /**
   * /edit on an existing booking: a new date and/or time of day moves the
   * nominal time (the part not given is kept), a new status replaces the old
   * one without any transition check, and the actual times are left as they
   * are. With nothing to change the booking is untouched.
   */
  function EditTransition(b: Booking, newDate: Option<int>, newTime: Option<int>, newStatus: Option<Status>): (r: Result<Booking>)
    requires newTime.Some? ==> 0 <= newTime.value < DAY
    ensures r == Err(NothingToChange) <==> newDate.None? && newTime.None? && newStatus.None?
    ensures r.Ok? <==> newDate.Some? || newTime.Some? || newStatus.Some?
    ensures r.Ok? ==> (DateOf(r.value.nominal) == newDate.GetOr(DateOf(b.nominal))
      && TimeOfDay(r.value.nominal) == newTime.GetOr(TimeOfDay(b.nominal)))
    ensures r.Ok? ==> r.value.status == newStatus.GetOr(b.status)
    ensures r.Ok? ==> (r.value.id == b.id && r.value.programId == b.programId
      && r.value.actualStart == b.actualStart && r.value.actualEnd == b.actualEnd)
  {
    if newDate.None? && newTime.None? && newStatus.None? then Err(NothingToChange)
    else
      var moved := if newDate.Some? || newTime.Some? then b.(nominal := Rescheduled(b.nominal, newDate, newTime)) else b;
      Ok(if newStatus.Some? then moved.(status := newStatus.value) else moved)
  }

  /** Finishing twice: the second call is refused, so the actual end is the time of the first. */
  lemma FinishTwice(b: Booking, t1: Instant, t2: Instant)
    requires b.status != Finished
    ensures FinishTransition(b, t1).Ok?
    ensures FinishTransition(FinishTransition(b, t1).value, t2) == Err(AlreadyFinished)
    ensures FinishTransition(b, t1).value.actualEnd == Some(t1)
  {
  }

  /** A finished wash cannot be started again (on refusal `BookingTable.StartWash` leaves the table, so its actual start, unchanged). */
  lemma NoStartAfterFinish(b: Booking, t1: Instant, t2: Instant)
    requires b.status != Finished
    ensures StartTransition(FinishTransition(b, t1).value, t2) == Err(AlreadyFinished)
  {
  }

  /** The normal run: started at t0 and finished at t1 records exactly [t0, t1] as the actual times. */
  lemma StartThenFinish(b: Booking, t0: Instant, t1: Instant)
    requires b.status == Scheduled
    ensures StartTransition(b, t0).Ok?
    ensures var f := FinishTransition(StartTransition(b, t0).value, t1);
      f.Ok? && f.value.actualStart == Some(t0) && f.value.actualEnd == Some(t1) && f.value.nominal == b.nominal
  {
  }

  /**
   * Forcing a finished booking back to scheduled keeps its actual times, so
   * the lifecycle invariant no longer holds; starting it again then yields an
   * in-progress booking that still carries the old actual end.
   */
  lemma ReopenKeepsStaleTimes(b: Booking, t1: Instant, t2: Instant)
    requires b.status != Finished
    ensures var f := FinishTransition(b, t1).value;
      var reopened := EditTransition(f, None, None, Some(Scheduled)).value;
      WellFormed(f) && !WellFormed(reopened)
      && StartTransition(reopened, t2).Ok? && StartTransition(reopened, t2).value.actualEnd == Some(t1)
  {
  }

  /** The bookings table, keyed by booking id. */
  class BookingTable {
    var rows: map<int, Booking>

    /** The table's primary key: each booking is stored under its own id. */
    ghost predicate Valid()
      reads this
    {
      forall id :: id in rows ==> rows[id].id == id
    }

    /** Every booking respects the lifecycle invariant. */
    ghost predicate AllWellFormed()
      reads this
    {
      forall id :: id in rows ==> WellFormed(rows[id])
    }

    constructor (initial: map<int, Booking>)
      requires forall id :: id in initial ==> initial[id].id == id
      ensures Valid() && rows == initial
    {
      rows := initial;
    }

    method StartWash(id: int, now: Instant) returns (r: Outcome)
      requires Valid()
      modifies this
      ensures Valid()
      ensures id !in old(rows) ==> r == Failed(NotFound) && rows == old(rows)
      ensures id in old(rows) ==>
        match StartTransition(old(rows)[id], now)
        case Ok(b) => r == Done && rows == old(rows)[id := b]
        case Err(e) => r == Failed(e) && rows == old(rows)
      ensures old(AllWellFormed()) ==> AllWellFormed()
    {
      if id !in rows {
        return Failed(NotFound);
      }
      var status := rows[id].status;
      if status == InProgress {
        return Failed(AlreadyStarted);
      } else if status == Finished {
        return Failed(AlreadyFinished);
      }
      rows := rows[id := rows[id].(status := InProgress, actualStart := Some(now))];
      r := Done;
    }

    method FinishWash(id: int, now: Instant) returns (r: Outcome)
      requires Valid()
      modifies this
      ensures Valid()
      ensures id !in old(rows) ==> r == Failed(NotFound) && rows == old(rows)
      ensures id in old(rows) ==>
        match FinishTransition(old(rows)[id], now)
        case Ok(b) => r == Done && rows == old(rows)[id := b]
        case Err(e) => r == Failed(e) && rows == old(rows)
      ensures old(AllWellFormed()) ==> AllWellFormed()
    {
      if id !in rows {
        return Failed(NotFound);
      }
      var b := rows[id];
      if b.status == Finished {
        return Failed(AlreadyFinished);
      }
      rows := rows[id := b.(status := Finished, actualStart := Some(b.actualStart.GetOr(now)), actualEnd := Some(now))];
      r := Done;
    }

    method Edit(id: int, newDate: Option<int>, newTime: Option<int>, newStatus: Option<Status>) returns (r: Outcome)
      requires Valid()
      requires newTime.Some? ==> 0 <= newTime.value < DAY
      modifies this
      ensures Valid()
      ensures id !in old(rows) ==> r == Failed(NotFound) && rows == old(rows)
      ensures id in old(rows) ==>
        match EditTransition(old(rows)[id], newDate, newTime, newStatus)
        case Ok(b) => r == Done && rows == old(rows)[id := b]
        case Err(e) => r == Failed(e) && rows == old(rows)
    {
      if id !in rows {
        return Failed(NotFound);
      }
      var b := rows[id];
      if newDate.Some? || newTime.Some? {
        b := b.(nominal := Rescheduled(b.nominal, newDate, newTime));
      }
      if newStatus.Some? {
        b := b.(status := newStatus.value);
      }
      if newDate.None? && newTime.None? && newStatus.None? {
        return Failed(NothingToChange);
      }
      rows := rows[id := b];
      r := Done;
    }
  }
}
