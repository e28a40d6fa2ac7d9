/**
 * Booking rows and the conflict rule shared by slot search: the effective
 * interval a booking occupies, widened by the buffer on both sides, must not
 * meet a candidate slot.
 */
module Bookings {
  import opened Wrappers
  import opened Clock

  datatype Status = Scheduled | InProgress | Finished

  /**
   * A row of the bookings table as far as scheduling is concerned. The
   * program is NULL once it has been deleted from the catalog.
   */
  datatype Booking = Booking(
    id: int,
    programId: Option<int>,
    nominal: Instant,
    status: Status,
    actualStart: Option<Instant>,
    actualEnd: Option<Instant>)

  /** The intended lifecycle invariant: actual times appear only once the wash has started/finished. */
  predicate WellFormed(b: Booking) {
    (b.actualStart.Some? ==> b.status != Scheduled) && (b.actualEnd.Some? ==> b.status == Finished)
  }

  /** A row of the availability query: a booking LEFT JOINed with its program's duration in minutes. */
  datatype BookedRow = BookedRow(
    nominal: Instant,
    durationMinutes: Option<int>,
    status: Status,
    actualStart: Option<Instant>,
    actualEnd: Option<Instant>)

  /** The program's duration through the LEFT JOIN: NULL when the booking has no program or it is gone. */
  function JoinedDuration(catalog: map<int, int>, programId: Option<int>): (d: Option<int>)
    ensures d.Some? <==> programId.Some? && programId.value in catalog
    ensures d.Some? ==> d.value == catalog[programId.value]
  {
    if programId.Some? && programId.value in catalog then Some(catalog[programId.value]) else None
  }

  function Joined(catalog: map<int, int>, b: Booking): BookedRow {
    BookedRow(b.nominal, JoinedDuration(catalog, b.programId), b.status, b.actualStart, b.actualEnd)
  }

  /** The availability query: every booking whose nominal date is `date`, whatever its status, joined with its duration. */
  function BookedOn(table: seq<Booking>, catalog: map<int, int>, date: int): (rows: seq<BookedRow>)
    ensures |rows| <= |table|
    ensures forall k :: 0 <= k < |rows| ==> DateOf(rows[k].nominal) == date
  {
    if |table| == 0 then []
    else
      var rest := BookedOn(table[1..], catalog, date);
      if DateOf(table[0].nominal) == date then [Joined(catalog, table[0])] + rest else rest
  }

  /** The query returns exactly the joined rows of the bookings nominally on `date`. */
  lemma {:induction false} BookedOnMembers(table: seq<Booking>, catalog: map<int, int>, date: int)
    ensures forall r :: r in BookedOn(table, catalog, date) ==>
      exists b :: b in table && DateOf(b.nominal) == date && r == Joined(catalog, b)
    ensures forall b :: b in table && DateOf(b.nominal) == date ==> Joined(catalog, b) in BookedOn(table, catalog, date)
  {
    if |table| > 0 {
      BookedOnMembers(table[1..], catalog, date);
      assert forall b :: b in table[1..] ==> b in table;
      assert forall b :: b in table ==> b == table[0] || b in table[1..];
    }
  }

  datatype Interval = Interval(start: Instant, end: Instant)

  /**
   * The interval a booking occupies for conflict purposes. A booking that
   * has not started occupies its nominal slot; once started or finished the
   * actual times replace the nominal ones where they are known. A missing
   * duration counts as zero minutes.
   */
  function Effective(r: BookedRow): (iv: Interval)
    ensures r.status == Scheduled ==> iv.start == r.nominal
    ensures r.status != Scheduled ==> iv.start == r.actualStart.GetOr(r.nominal)
    ensures r.status != Scheduled && r.actualEnd.Some? ==> iv.end == r.actualEnd.value
    ensures r.status == Scheduled || r.actualEnd.None? ==> iv.end - iv.start == Minutes(r.durationMinutes.GetOr(0))
  {
    var duration := Minutes(r.durationMinutes.GetOr(0));
    if r.status == Scheduled then
      Interval(r.nominal, r.nominal + duration)
    else
      var start := r.actualStart.GetOr(r.nominal);
      Interval(start, r.actualEnd.GetOr(start + duration))
  }

  /** The candidate slot [start, end) meets the booking's effective interval widened by BUFFER on both sides. */
  predicate Conflicts(start: Instant, end: Instant, r: BookedRow)
    ensures Conflicts(start, end, r) <==>
      !(Effective(r).end <= start - BUFFER || Effective(r).start >= end + BUFFER)
  {
    var iv := Effective(r);
    !(end <= iv.start - BUFFER || start >= iv.end + BUFFER)
  }

  predicate ConflictsWithAny(start: Instant, end: Instant, booked: seq<BookedRow>) {
    exists k :: 0 <= k < |booked| && Conflicts(start, end, booked[k])
  }

  /** Two instants lie more than BUFFER apart. */
  predicate Apart(x: Instant, y: Instant) {
    x + BUFFER < y || y + BUFFER < x
  }

  /**
   * What a conflict means for non-empty intervals: a slot is free of a
   * booking exactly when every instant of the slot lies more than BUFFER away
   * from every instant of the booking's effective interval.
   */
  lemma ConflictMeansTooClose(start: Instant, end: Instant, r: BookedRow)
    requires start < end && Effective(r).start < Effective(r).end
    ensures !Conflicts(start, end, r) <==>
      forall x, y :: start <= x < end && Effective(r).start <= y < Effective(r).end ==> Apart(x, y)
  {
    var iv := Effective(r);
    if Conflicts(start, end, r) {
      var x, y;
      if start <= iv.start {
        x, y := if start < iv.start - BUFFER then iv.start - BUFFER else start, iv.start;
      } else {
        x, y := start, if start < iv.end - 1 then start else iv.end - 1;
      }
      assert start <= x < end && iv.start <= y < iv.end && !Apart(x, y);
    } else {
      forall x, y | start <= x < end && iv.start <= y < iv.end
        ensures Apart(x, y)
      {
      }
    }
  }
}
