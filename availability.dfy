/**
 * Which whole-hour start times a new booking of a program may take on a
 * given date: inside the working window, not in the past (plus the buffer)
 * when the date is today, and clear of every booking of that date.
 */
module Availability {
  import opened Wrappers
  import opened Clock
  import opened Bookings

  function WorkStart(date: int): Instant {
    Combine(date, WORK_START_HOUR * HOUR)
  }

  function WorkEnd(date: int): Instant {
    Combine(date, WORK_END_HOUR * HOUR)
  }

  /** The candidate start at hour `h` of `date`. */
  function SlotAt(date: int, h: int): (t: Instant)
    requires 0 <= h < 24
    ensures DateOf(t) == date && TimeOfDay(t) == h * HOUR
  {
    Combine(date, h * HOUR)
  }

  lemma SlotAtAscending(date: int, h1: int, h2: int)
    requires 0 <= h1 < h2 < 24
    ensures SlotAt(date, h1) < SlotAt(date, h2)
  {
    assert h1 * HOUR < h2 * HOUR;
  }

  /** The earliest start offered: the start of the working day, or on the current day also no earlier than now + BUFFER. */
  function MinAllowedStart(date: int, now: Instant): (m: Instant)
    ensures m >= WorkStart(date)
    ensures date == DateOf(now) ==> m >= now + BUFFER
    ensures m == WorkStart(date) || (date == DateOf(now) && m == now + BUFFER)
  {
    if date == DateOf(now) then Max(WorkStart(date), now + BUFFER) else WorkStart(date)
  }

  /** A start survives the filter: late enough, finished by the end of the window, and clear of every booked row. */
  predicate Admissible(start: Instant, duration: int, date: int, now: Instant, booked: seq<BookedRow>) {
    && start >= MinAllowedStart(date, now)
    && start + duration <= WorkEnd(date)
    && !ConflictsWithAny(start, start + duration, booked)
  }

  /** The admissible candidates among hours WORK_START_HOUR .. hour - 1, in the order they are generated. */
  function AvailableBefore(hour: int, duration: int, date: int, now: Instant, booked: seq<BookedRow>): seq<Instant>
    requires WORK_START_HOUR <= hour <= WORK_END_HOUR
    decreases hour
  {
    if hour == WORK_START_HOUR then []
    else
      var start := SlotAt(date, hour - 1);
      AvailableBefore(hour - 1, duration, date, now, booked)
        + (if Admissible(start, duration, date, now, booked) then [start] else [])
  }

  /** The start times offered for a program on `date`; an unknown program has none. */
  function AvailableStarts(catalog: map<int, int>, programId: int, date: int, now: Instant, table: seq<Booking>): seq<Instant> {
    if programId !in catalog then []
    else AvailableBefore(WORK_END_HOUR, Minutes(catalog[programId]), date, now, BookedOn(table, catalog, date))
  }

  /**
   * The slot search of the bot: one candidate per whole hour, skipped when
   * too early or running past the window, then checked against every booked
   * row of the date until the first conflict.
   */
  method GetAvailableHours(catalog: map<int, int>, programId: int, date: int, now: Instant, table: seq<Booking>)
    returns (available: seq<Instant>)
    ensures programId !in catalog ==> available == []
    ensures available == AvailableStarts(catalog, programId, date, now, table)
  {
    if programId !in catalog {
      return [];
    }
    var duration := Minutes(catalog[programId]);
    var workStart := WorkStart(date);
    var workEnd := WorkEnd(date);
    var minAllowedStart := workStart;
    if date == DateOf(now) {
      minAllowedStart := Max(workStart, now + BUFFER);
    }
    var booked := BookedOn(table, catalog, date);
    available := [];
    for h := WORK_START_HOUR to WORK_END_HOUR
      invariant available == AvailableBefore(h, duration, date, now, booked)
    {
      var start := SlotAt(date, h);
      if start < minAllowedStart {
        continue;
      }
      var end := start + duration;
      if end > workEnd {
        continue;
      }
      var conflict := false;
      var i := 0;
      while i < |booked|
        invariant 0 <= i <= |booked|
        invariant forall k :: 0 <= k < i ==> !Conflicts(start, end, booked[k])
      {
        var iv := Effective(booked[i]);
        if !(end <= iv.start - BUFFER || start >= iv.end + BUFFER) {
          conflict := true;
          break;
        }
        i := i + 1;
      }
      if !conflict {
        available := available + [start];
      }
    }
  }

  predicate StrictlyAscending(s: seq<Instant>) {
    forall i, j :: 0 <= i < j < |s| ==> s[i] < s[j]
  }

  lemma {:induction false} AvailableBeforeMembers(hour: int, duration: int, date: int, now: Instant, booked: seq<BookedRow>)
    requires WORK_START_HOUR <= hour <= WORK_END_HOUR
    ensures forall s :: s in AvailableBefore(hour, duration, date, now, booked) <==>
      exists h :: WORK_START_HOUR <= h < hour && s == SlotAt(date, h) && Admissible(s, duration, date, now, booked)
    decreases hour
  {
    if hour > WORK_START_HOUR {
      AvailableBeforeMembers(hour - 1, duration, date, now, booked);
    }
  }

  lemma {:induction false} AvailableBeforeAscending(hour: int, duration: int, date: int, now: Instant, booked: seq<BookedRow>)
    requires WORK_START_HOUR <= hour <= WORK_END_HOUR
    ensures StrictlyAscending(AvailableBefore(hour, duration, date, now, booked))
    ensures forall t :: t in AvailableBefore(hour, duration, date, now, booked) ==> t < SlotAt(date, hour)
    decreases hour
  {
    if hour > WORK_START_HOUR {
      var prev := AvailableBefore(hour - 1, duration, date, now, booked);
      var start := SlotAt(date, hour - 1);
      AvailableBeforeAscending(hour - 1, duration, date, now, booked);
      SlotAtAscending(date, hour - 1, hour);
      var r := AvailableBefore(hour, duration, date, now, booked);
      assert r == prev + (if Admissible(start, duration, date, now, booked) then [start] else []);
      assert forall i :: 0 <= i < |prev| ==> r[i] == prev[i];
      assert forall i :: |prev| <= i < |r| ==> r[i] == start;
      forall i, j | 0 <= i < j < |r|
        ensures r[i] < r[j]
      {
        if j < |prev| {
          assert prev[i] < prev[j];
        } else {
          assert prev[i] in prev;
        }
      }
    }
  }

  /**
   * Every offered start is a whole hour from 09:00 to 20:00 of the date, no
   * earlier than the minimum allowed start (so on the current day at least
   * BUFFER after now), lets the wash finish by 21:00, and keeps clear of
   * every booking whose nominal date is that date.
   */
  lemma AvailableStartsSound(catalog: map<int, int>, programId: int, date: int, now: Instant, table: seq<Booking>, s: Instant)
    requires s in AvailableStarts(catalog, programId, date, now, table)
    ensures programId in catalog
    ensures exists h :: WORK_START_HOUR <= h < WORK_END_HOUR && s == SlotAt(date, h)
    ensures s >= WorkStart(date) && s >= MinAllowedStart(date, now)
    ensures date == DateOf(now) ==> s >= now + BUFFER
    ensures s + Minutes(catalog[programId]) <= WorkEnd(date)
    ensures forall b :: b in table && DateOf(b.nominal) == date ==>
      !Conflicts(s, s + Minutes(catalog[programId]), Joined(catalog, b))
  {
    var duration := Minutes(catalog[programId]);
    var booked := BookedOn(table, catalog, date);
    assert AvailableStarts(catalog, programId, date, now, table) == AvailableBefore(WORK_END_HOUR, duration, date, now, booked);
    AvailableBeforeMembers(WORK_END_HOUR, duration, date, now, booked);
    assert Admissible(s, duration, date, now, booked);
    BookedOnMembers(table, catalog, date);
    forall b | b in table && DateOf(b.nominal) == date
      ensures !Conflicts(s, s + duration, Joined(catalog, b))
    {
      var k :| 0 <= k < |booked| && booked[k] == Joined(catalog, b);
    }
  }

  /**
   * Conversely, every whole hour of the window that is late enough, fits
   * before 21:00 and is clear of every booking of the date is offered: one
   * conflicting booking is the only other reason to drop it.
   */
  lemma AvailableStartsComplete(catalog: map<int, int>, programId: int, date: int, now: Instant, table: seq<Booking>, h: int)
    requires programId in catalog && WORK_START_HOUR <= h < WORK_END_HOUR
    requires SlotAt(date, h) >= MinAllowedStart(date, now)
    requires SlotAt(date, h) + Minutes(catalog[programId]) <= WorkEnd(date)
    requires forall b :: b in table && DateOf(b.nominal) == date ==>
      !Conflicts(SlotAt(date, h), SlotAt(date, h) + Minutes(catalog[programId]), Joined(catalog, b))
    ensures SlotAt(date, h) in AvailableStarts(catalog, programId, date, now, table)
  {
    var duration := Minutes(catalog[programId]);
    var booked := BookedOn(table, catalog, date);
    var s := SlotAt(date, h);
    BookedOnMembers(table, catalog, date);
    forall k | 0 <= k < |booked|
      ensures !Conflicts(s, s + duration, booked[k])
    {
      assert booked[k] in booked;
    }
    assert AvailableStarts(catalog, programId, date, now, table) == AvailableBefore(WORK_END_HOUR, duration, date, now, booked);
    AvailableBeforeMembers(WORK_END_HOUR, duration, date, now, booked);
  }

  /** The offered starts are in strictly ascending order. */
  lemma AvailableStartsAscending(catalog: map<int, int>, programId: int, date: int, now: Instant, table: seq<Booking>)
    ensures StrictlyAscending(AvailableStarts(catalog, programId, date, now, table))
  {
    if programId in catalog {
      assert AvailableStarts(catalog, programId, date, now, table)
        == AvailableBefore(WORK_END_HOUR, Minutes(catalog[programId]), date, now, BookedOn(table, catalog, date));
      AvailableBeforeAscending(WORK_END_HOUR, Minutes(catalog[programId]), date, now, BookedOn(table, catalog, date));
    }
  }

  /**
   * A 60-minute program on a day other than today, with one 60-minute
   * booking scheduled at 10:00: the buffer makes 09:00, 10:00 and 11:00
   * collide with it, so the first start offered is 12:00 and every later
   * hour up to 20:00 is offered.
   */
  lemma OneBookingAtTen(date: int, now: Instant, id: int, programId: int)
    requires DateOf(now) != date
    ensures AvailableStarts(map[programId := 60], programId, date, now,
        [Booking(id, Some(programId), SlotAt(date, 10), Scheduled, None, None)])
      == [SlotAt(date, 12), SlotAt(date, 13), SlotAt(date, 14), SlotAt(date, 15), SlotAt(date, 16),
          SlotAt(date, 17), SlotAt(date, 18), SlotAt(date, 19), SlotAt(date, 20)]
  {
    var catalog := map[programId := 60];
    var table := [Booking(id, Some(programId), SlotAt(date, 10), Scheduled, None, None)];
    var row := BookedRow(SlotAt(date, 10), Some(60), Scheduled, None, None);
    assert BookedOn(table, catalog, date) == [row];
    var duration := Minutes(60);
    assert Effective(row) == Interval(SlotAt(date, 10), SlotAt(date, 11));
    assert !Admissible(SlotAt(date, 9), duration, date, now, [row]) by {
      assert Conflicts(SlotAt(date, 9), SlotAt(date, 10), [row][0]);
    }
    assert !Admissible(SlotAt(date, 10), duration, date, now, [row]) by {
      assert Conflicts(SlotAt(date, 10), SlotAt(date, 11), [row][0]);
    }
    assert !Admissible(SlotAt(date, 11), duration, date, now, [row]) by {
      assert Conflicts(SlotAt(date, 11), SlotAt(date, 12), [row][0]);
    }
    assert AvailableBefore(12, duration, date, now, [row]) == [];
    forall h | 12 <= h < WORK_END_HOUR
      ensures Admissible(SlotAt(date, h), duration, date, now, [row])
    {
      SlotAtAscending(date, 11, h);
    }
    assert AvailableBefore(13, duration, date, now, [row]) == [SlotAt(date, 12)];
    assert AvailableBefore(14, duration, date, now, [row]) == [SlotAt(date, 12), SlotAt(date, 13)];
    assert AvailableBefore(15, duration, date, now, [row]) == [SlotAt(date, 12), SlotAt(date, 13), SlotAt(date, 14)];
    assert AvailableBefore(16, duration, date, now, [row])
      == [SlotAt(date, 12), SlotAt(date, 13), SlotAt(date, 14), SlotAt(date, 15)];
    assert AvailableBefore(17, duration, date, now, [row])
      == [SlotAt(date, 12), SlotAt(date, 13), SlotAt(date, 14), SlotAt(date, 15), SlotAt(date, 16)];
    assert AvailableBefore(18, duration, date, now, [row])
      == [SlotAt(date, 12), SlotAt(date, 13), SlotAt(date, 14), SlotAt(date, 15), SlotAt(date, 16), SlotAt(date, 17)];
    assert AvailableBefore(19, duration, date, now, [row])
      == [SlotAt(date, 12), SlotAt(date, 13), SlotAt(date, 14), SlotAt(date, 15), SlotAt(date, 16), SlotAt(date, 17),
          SlotAt(date, 18)];
    assert AvailableBefore(20, duration, date, now, [row])
      == [SlotAt(date, 12), SlotAt(date, 13), SlotAt(date, 14), SlotAt(date, 15), SlotAt(date, 16), SlotAt(date, 17),
          SlotAt(date, 18), SlotAt(date, 19)];
  }
}
