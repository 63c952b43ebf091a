/**
 * The booking-data composable (frontend/src/composables/useBookingData.js):
 * the greyed-out past window of the selected day and the bookings drawn on
 * that day's timeline.
 */
module BookingData {
  import opened Wrappers
  import opened TimeUtils

  /** A time interval on the timeline, `{ start, end }`. */
  datatype Slot = Slot(start: int, end: int)

  /** The fields of a booking, as the API returns it, that the timeline reads. */
  datatype BookingView = BookingView(id: int, status: string, startTime: int, endTime: int)

  /** A booking drawn on the timeline: the booking with `start` and `end` added. */
  datatype BookedSlot = BookedSlot(booking: BookingView, start: int, end: int)

  /**
   * `pastTimeSlot`: no window without a selected date; from midnight to now
   * when the selected day is today; the whole day when it is an earlier day;
   * none for a later day.
   */
  function PastTimeSlot(selectedDate: Option<int>, now: int): (r: Option<Slot>)
    ensures selectedDate.None? ==> r.None?
    ensures selectedDate.Some? && SameDay(selectedDate.value, now) ==>
      r == Some(Slot(DayStart(selectedDate.value), now))
    ensures selectedDate.Some? && DayStart(selectedDate.value) < DayStart(now) ==>
      r == Some(Slot(DayStart(selectedDate.value), DayEnd(selectedDate.value)))
    ensures selectedDate.Some? && DayStart(now) < DayStart(selectedDate.value) ==> r.None?
  {
    if selectedDate.None? then None
    else
      var dateStart := DayStart(selectedDate.value);
      var dateEnd := DayEnd(selectedDate.value);
      SameDayIffSameStart(selectedDate.value, now);
      SameDayIffSameStart(dateStart, now);
      if SameDay(dateStart, now) then Some(Slot(dateStart, now))
      else if dateStart < now then Some(Slot(dateStart, dateEnd))
      else None
  }

  /**
   * The past window starts at the selected day's midnight, ends no later
   * than now, and covers every minute of that day before now.
   */
  lemma PastWindowCoversPast(selectedDate: int, now: int, t: int)
    requires PastTimeSlot(Some(selectedDate), now).Some?
    requires SameDay(t, selectedDate) && t < now
    ensures var w := PastTimeSlot(Some(selectedDate), now).value;
            w.start == DayStart(selectedDate) && w.start <= t <= w.end && w.end <= now
  {
    SameDayIffSameStart(t, selectedDate);
    SameDayIffSameStart(selectedDate, now);
  }

  /** A booking is drawn on the selected day: not cancelled, and starting on that day. */
  predicate ShownOn(b: BookingView, day: int) {
    b.status != "cancelled" && SameDay(b.startTime, day)
  }

  /** The filter-and-map of `bookedSlots` over a list of bookings. */
  function SlotsOn(day: int, rows: seq<BookingView>): (r: seq<BookedSlot>)
    ensures |r| <= |rows|
    ensures forall i :: 0 <= i < |r| ==>
      r[i].booking in rows && ShownOn(r[i].booking, day)
      && r[i].start == r[i].booking.startTime && r[i].end == r[i].booking.endTime
  {
    if |rows| == 0 then []
    else
      var rest := SlotsOn(day, rows[1..]);
      if ShownOn(rows[0], day) then [BookedSlot(rows[0], rows[0].startTime, rows[0].endTime)] + rest
      else rest
  }

  /** Every shown booking is drawn: the filter drops exactly the bookings not shown on the day. */
  lemma {:induction false} ShownBookingsAreDrawn(day: int, rows: seq<BookingView>, b: BookingView)
    requires b in rows && ShownOn(b, day)
    ensures BookedSlot(b, b.startTime, b.endTime) in SlotsOn(day, rows)
  {
    if rows[0] != b {
      ShownBookingsAreDrawn(day, rows[1..], b);
    }
  }

  /** The filter keeps order: filtering a concatenation concatenates the filtered parts. */
  lemma {:induction false} SlotsOnConcat(day: int, a: seq<BookingView>, b: seq<BookingView>)
    ensures SlotsOn(day, a + b) == SlotsOn(day, a) + SlotsOn(day, b)
  {
    if |a| > 0 {
      assert (a + b)[1..] == a[1..] + b;
      SlotsOnConcat(day, a[1..], b);
    } else {
      assert a + b == b;
    }
  }

  /** `bookedSlots`: nothing without a selected date or a booking list; otherwise the day's drawn bookings. */
  function BookedSlots(selectedDate: Option<int>, bookings: Option<seq<BookingView>>): (r: seq<BookedSlot>)
    ensures selectedDate.None? || bookings.None? ==> r == []
    ensures selectedDate.Some? && bookings.Some? ==> r == SlotsOn(selectedDate.value, bookings.value)
  {
    if selectedDate.None? || bookings.None? then []
    else SlotsOn(selectedDate.value, bookings.value)
  }
}
