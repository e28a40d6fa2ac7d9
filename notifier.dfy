/**
 * After a wash finishes, the next customer in line is told they may come
 * early: the earliest scheduled booking after the finished one's nominal
 * time, on the same date, gets a message once BUFFER has passed since that
 * nominal time.
 */
module Notifier {
  import opened Wrappers
  import opened Clock
  import opened Bookings

  /** A booking still waiting for its turn after `after`. */
  predicate Waiting(b: Booking, after: Instant) {
    b.status == Scheduled && b.nominal > after
  }

  /** `a` comes no later than `b` in the queue order: nominal time, then id. */
  predicate NoLaterThan(a: Booking, b: Booking) {
    a.nominal < b.nominal || (a.nominal == b.nominal && a.id <= b.id)
  }

  /**
   * `ORDER BY booking_datetime, id LIMIT 1` over the waiting bookings: the
   * first of them in queue order, or None when no booking is waiting.
   */
  function NextInLine(rows: seq<Booking>, after: Instant): (r: Option<Booking>)
    ensures r.None? <==> forall k :: 0 <= k < |rows| ==> !Waiting(rows[k], after)
    ensures r.Some? ==> r.value in rows && Waiting(r.value, after)
    ensures r.Some? ==> forall k :: 0 <= k < |rows| && Waiting(rows[k], after) ==> NoLaterThan(r.value, rows[k])
    decreases |rows|
  {
    if |rows| == 0 then None
    else
      var rest := NextInLine(rows[1..], after);
      assert forall k :: 1 <= k < |rows| ==> rows[k] == rows[1..][k - 1];
      if !Waiting(rows[0], after) then rest
      else if rest.None? || NoLaterThan(rows[0], rest.value) then Some(rows[0])
      else rest
  }

  /** `SELECT ... WHERE id = $1`: the first row with that id. */
  function FindById(rows: seq<Booking>, id: int): (r: Option<Booking>)
    ensures r.None? <==> forall k :: 0 <= k < |rows| ==> rows[k].id != id
    ensures r.Some? ==> exists k :: (0 <= k < |rows| && rows[k] == r.value && r.value.id == id
      && forall j :: 0 <= j < k ==> rows[j].id != id)
    decreases |rows|
  {
    if |rows| == 0 then None
    else if rows[0].id == id then Some(rows[0])
    else
      var rest := FindById(rows[1..], id);
      assert forall k :: 1 <= k < |rows| ==> rows[k] == rows[1..][k - 1];
      if rest.Some? then
        ghost var k :| 0 <= k < |rows[1..]| && rows[1..][k] == rest.value && rest.value.id == id
          && forall j :: 0 <= j < k ==> rows[1..][j].id != id;
        assert rows[k + 1] == rest.value && forall j :: 0 <= j < k + 1 ==> rows[j].id != id;
        rest
      else rest
  }

  /** The customer to tell and how long to wait before telling them, in microseconds. */
  datatype Notice = Notice(next: Booking, delay: int)

  /**
   * What finishing booking `finishedId` schedules: nothing when the booking
   * is gone, when no booking is waiting after its nominal time, or when the
   * next one is on another date; otherwise a message to the next customer
   * that goes out BUFFER after the finished booking's nominal time, or at
   * once if that moment has passed.
   */
  function NotifyNext(finishedId: int, rows: seq<Booking>, now: Instant): (r: Option<Notice>)
    ensures r.Some? ==> FindById(rows, finishedId).Some?
    ensures r.Some? ==>
      var finished := FindById(rows, finishedId).value;
      && NextInLine(rows, finished.nominal) == Some(r.value.next)
      && DateOf(r.value.next.nominal) == DateOf(finished.nominal)
      && r.value.delay >= 0
      && now + r.value.delay == Max(now, finished.nominal + BUFFER)
    ensures r.None? <==>
      || FindById(rows, finishedId).None?
      || NextInLine(rows, FindById(rows, finishedId).value.nominal).None?
      || DateOf(NextInLine(rows, FindById(rows, finishedId).value.nominal).value.nominal)
         != DateOf(FindById(rows, finishedId).value.nominal)
  {
    match FindById(rows, finishedId)
    case None => None
    case Some(finished) =>
      match NextInLine(rows, finished.nominal)
      case None => None
      case Some(next) =>
        if DateOf(next.nominal) != DateOf(finished.nominal) then None
        else
          var notifyTime := finished.nominal + BUFFER;
          Some(Notice(next, Max(notifyTime - now, 0)))
  }

  /** The rows with one booking's actual start and end replaced. */
  function WithActualTimes(rows: seq<Booking>, i: int, s: Option<Instant>, e: Option<Instant>): (rows': seq<Booking>)
    requires 0 <= i < |rows|
    ensures |rows'| == |rows|
  {
    rows[i := rows[i].(actualStart := s, actualEnd := e)]
  }

  /** The two tables agree on everything the queue order and the id lookup look at. */
  predicate SameQueue(rows: seq<Booking>, rows': seq<Booking>) {
    |rows| == |rows'| && forall k :: 0 <= k < |rows| ==>
      rows'[k].id == rows[k].id && rows'[k].nominal == rows[k].nominal && rows'[k].status == rows[k].status
  }

  lemma FindByIdSameQueue(rows: seq<Booking>, rows': seq<Booking>, id: int)
    requires SameQueue(rows, rows')
    ensures FindById(rows, id).None? == FindById(rows', id).None?
    ensures FindById(rows, id).Some? ==> FindById(rows, id).value.nominal == FindById(rows', id).value.nominal
  {
  }

  lemma NextInLineSameQueue(rows: seq<Booking>, rows': seq<Booking>, after: Instant)
    requires SameQueue(rows, rows')
    ensures NextInLine(rows, after).None? == NextInLine(rows', after).None?
    ensures NextInLine(rows, after).Some? ==>
      NextInLine(rows, after).value.id == NextInLine(rows', after).value.id
      && NextInLine(rows, after).value.nominal == NextInLine(rows', after).value.nominal
  {
  }

  /**
   * Who is told, and when, depends only on nominal times, statuses and ids:
   * the actual start and end of any booking, including the one that just
   * finished, make no difference.
   */
  lemma NotifyIgnoresActualTimes(finishedId: int, rows: seq<Booking>, now: Instant, i: int, s: Option<Instant>, e: Option<Instant>)
    requires 0 <= i < |rows|
    ensures var r1, r2 := NotifyNext(finishedId, rows, now), NotifyNext(finishedId, WithActualTimes(rows, i, s, e), now);
      && r1.None? == r2.None?
      && (r1.Some? ==> (r1.value.delay == r2.value.delay
        && r1.value.next.id == r2.value.next.id && r1.value.next.nominal == r2.value.next.nominal))
  {
    var rows' := WithActualTimes(rows, i, s, e);
    assert SameQueue(rows, rows');
    FindByIdSameQueue(rows, rows', finishedId);
    var f := FindById(rows, finishedId);
    if f.Some? {
      NextInLineSameQueue(rows, rows', f.value.nominal);
    }
  }

  /**
   * A wash booked for 10:00 finishes early at 10:45 and the next booking is
   * at 11:00 the same day: the next customer is told at once, because the
   * notification time is 10:01, one BUFFER after the finished booking's
   * nominal start, not after its actual end.
   */
  lemma FinishedEarlyTellsNextAtOnce(date: int, programId: Option<int>)
    ensures var tenFortyFive := Combine(date, 10 * HOUR + 45 * MINUTE);
      var finished := Booking(1, programId, Combine(date, 10 * HOUR), Finished, Some(Combine(date, 10 * HOUR)), Some(tenFortyFive));
      var next := Booking(2, programId, Combine(date, 11 * HOUR), Scheduled, None, None);
      NotifyNext(1, [finished, next], tenFortyFive) == Some(Notice(next, 0))
  {
    var tenFortyFive := Combine(date, 10 * HOUR + 45 * MINUTE);
    var finished := Booking(1, programId, Combine(date, 10 * HOUR), Finished, Some(Combine(date, 10 * HOUR)), Some(tenFortyFive));
    var next := Booking(2, programId, Combine(date, 11 * HOUR), Scheduled, None, None);
    var rows := [finished, next];
    assert FindById(rows, 1) == Some(finished);
    assert NextInLine(rows, finished.nominal) == Some(next);
  }
}
