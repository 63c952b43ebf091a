/**
 * The timeline selection composable
 * (frontend/src/composables/useTimelineSelection.js): a two-click state
 * machine over six reactive fields. A click or move arrives as the minute it
 * points at; the clock, the past window and the drawn bookings arrive as
 * parameters.
 */
module TimelineSelection {
  import opened Wrappers
  import opened TimeUtils
  import opened BookingData

  /** The `some(...)` over the drawn bookings: the selection overlaps one of them. */
  function OverlapsAny(start: int, end: int, booked: seq<BookedSlot>): (r: bool)
    ensures r <==> exists i :: 0 <= i < |booked| && IsTimeOverlap(start, end, booked[i].start, booked[i].end)
  {
    if |booked| == 0 then false
    else if IsTimeOverlap(start, end, booked[0].start, booked[0].end) then true
    else
      var rest := OverlapsAny(start, end, booked[1..]);
      assert rest ==> exists i :: 0 <= i < |booked| && IsTimeOverlap(start, end, booked[i].start, booked[i].end) by {
        if rest {
          var i :| 0 <= i < |booked[1..]| && IsTimeOverlap(start, end, booked[1..][i].start, booked[1..][i].end);
          assert booked[i + 1] == booked[1..][i];
        }
      }
      rest
  }

  /**
   * `isValidSelection`: both ends set, start before end, start not before
   * now, clear of the past window and of every drawn booking.
   */
  function IsValidSelection(selectionStart: Option<int>, selectionEnd: Option<int>, now: int,
                            pastTimeSlot: Option<Slot>, bookedSlots: seq<BookedSlot>): (r: bool)
    ensures r <==>
      && selectionStart.Some? && selectionEnd.Some?
      && now <= selectionStart.value < selectionEnd.value
      && (pastTimeSlot.Some? ==>
            !IsTimeOverlap(selectionStart.value, selectionEnd.value, pastTimeSlot.value.start, pastTimeSlot.value.end))
      && forall i :: 0 <= i < |bookedSlots| ==>
            !IsTimeOverlap(selectionStart.value, selectionEnd.value, bookedSlots[i].start, bookedSlots[i].end)
  {
    if selectionStart.None? || selectionEnd.None? then false
    else if selectionStart.value >= selectionEnd.value then false
    else if selectionStart.value < now then false
    else if pastTimeSlot.Some? &&
            IsTimeOverlap(selectionStart.value, selectionEnd.value, pastTimeSlot.value.start, pastTimeSlot.value.end) then false
    else !OverlapsAny(selectionStart.value, selectionEnd.value, bookedSlots)
  }

  /**
   * A valid selection shares no minute with any drawn booking of positive
   * length, nor with a past window of positive length.
   */
  lemma ValidSelectionIsFree(start: int, end: int, now: int, past: Option<Slot>, booked: seq<BookedSlot>, t: int)
    requires IsValidSelection(Some(start), Some(end), now, past, booked)
    requires start <= t < end
    ensures forall i :: 0 <= i < |booked| && booked[i].start < booked[i].end ==>
      !(booked[i].start <= t < booked[i].end)
    ensures past.Some? && past.value.start < past.value.end ==> !(past.value.start <= t < past.value.end)
  {
  }

  /** The two clicked points in order. */
  function Ordered(a: int, b: int): (r: (int, int))
    ensures r.0 <= r.1
    ensures (r.0 == a && r.1 == b) || (r.0 == b && r.1 == a)
  {
    if a > b then (b, a) else (a, b)
  }

  class Selection {
    var selecting: bool
    var selectedSlot: Option<Slot>
    var selectionStart: Option<int>
    var selectionEnd: Option<int>
    var firstClickPoint: Option<int>
    var previewEnd: Option<int>

    /** Nothing chosen and nothing in progress. */
    predicate Idle()
      reads this
    {
      && !selecting && selectedSlot.None? && selectionStart.None? && selectionEnd.None?
      && firstClickPoint.None? && previewEnd.None?
    }

    /**
     * The states the handlers can reach: idle; selecting after a first click,
     * with the previewed range running from the first point; or holding a
     * chosen slot of at least the minimum duration.
     */
    ghost predicate Valid()
      reads this
    {
      && (selecting <==> firstClickPoint.Some?)
      && (previewEnd.Some? ==> firstClickPoint.Some?)
      && (selectionStart.Some? <==> selectionEnd.Some?)
      && (selectionStart.Some? ==> selectionStart.value <= selectionEnd.value)
      && (firstClickPoint.Some? ==>
            selectedSlot.None? && selectionStart.Some?
            && (selectionStart.value == firstClickPoint.value || selectionEnd.value == firstClickPoint.value))
      && (selectedSlot.Some? ==>
            && selectionStart == Some(selectedSlot.value.start) && selectionEnd == Some(selectedSlot.value.end)
            && selectedSlot.value.start + MIN_BOOKING_DURATION <= selectedSlot.value.end)
      && (firstClickPoint.None? && selectedSlot.None? ==> selectionStart.None?)
    }

    constructor()
      ensures Valid() && Idle()
    {
      selecting := false;
      selectedSlot := None;
      selectionStart := None;
      selectionEnd := None;
      firstClickPoint := None;
      previewEnd := None;
    }

    /** `clearSelection`: every field back to null or false. */
    method ClearSelection()
      modifies this
      ensures Valid() && Idle()
    {
      selectedSlot := None;
      selectionStart := None;
      selectionEnd := None;
      firstClickPoint := None;
      previewEnd := None;
      selecting := false;
    }

    /** `cancelSelection`: the same reset, written field by field in another order. */
    method CancelSelection()
      modifies this
      ensures Valid() && Idle()
    {
      firstClickPoint := None;
      previewEnd := None;
      selecting := false;
      selectionStart := None;
      selectionEnd := None;
      selectedSlot := None;
    }

    /** `clearPreview`: only the preview end is dropped. */
    method ClearPreview()
      requires Valid()
      modifies this
      ensures Valid()
      ensures previewEnd.None?
      ensures selecting == old(selecting) && selectedSlot == old(selectedSlot)
      ensures selectionStart == old(selectionStart) && selectionEnd == old(selectionEnd)
      ensures firstClickPoint == old(firstClickPoint)
    {
      previewEnd := None;
    }

    /**
     * `handleTimelineClick` at minute `time`. Without a selected date nothing
     * changes. A first click starts a selection at `time`. A second click
     * orders the two points; a range shorter than the minimum duration, or
     * one that is not a valid selection, resets everything; otherwise it
     * becomes the chosen slot.
     */
    method HandleTimelineClick(selectedDate: Option<int>, time: int, now: int,
                               pastTimeSlot: Option<Slot>, bookedSlots: seq<BookedSlot>)
      requires Valid()
      modifies this
      ensures Valid()
      ensures selectedDate.None? ==>
        && selecting == old(selecting) && selectedSlot == old(selectedSlot)
        && selectionStart == old(selectionStart) && selectionEnd == old(selectionEnd)
        && firstClickPoint == old(firstClickPoint) && previewEnd == old(previewEnd)
      ensures selectedDate.Some? && old(firstClickPoint).None? ==>
        && firstClickPoint == Some(time) && selectionStart == Some(time) && selectionEnd == Some(time)
        && selecting && selectedSlot.None? && previewEnd == old(previewEnd)
      ensures selectedDate.Some? && old(firstClickPoint).Some? ==>
        var (start, end) := Ordered(old(firstClickPoint).value, time);
        if end - start < MIN_BOOKING_DURATION
           || !IsValidSelection(Some(start), Some(end), now, pastTimeSlot, bookedSlots) then
          Idle()
        else
          && selectedSlot == Some(Slot(start, end))
          && selectionStart == Some(start) && selectionEnd == Some(end)
          && firstClickPoint.None? && previewEnd.None? && !selecting
    {
      if selectedDate.None? {
        return;
      }
      if firstClickPoint.None? {
        firstClickPoint := Some(time);
        selectionStart := Some(time);
        selectionEnd := Some(time);
        selecting := true;
        selectedSlot := None;
      } else {
        var start := firstClickPoint.value;
        var end := time;
        if start > end {
          start, end := end, start;
        }
        var duration := end - start;
        if duration < MIN_BOOKING_DURATION {
          ClearSelection();
          return;
        }
        selectionStart := Some(start);
        selectionEnd := Some(end);
        if IsValidSelection(selectionStart, selectionEnd, now, pastTimeSlot, bookedSlots) {
          selectedSlot := Some(Slot(start, end));
          firstClickPoint := None;
          previewEnd := None;
          selecting := false;
        } else {
          ClearSelection();
        }
      }
    }

    /**
     * `handleTimelineMove` at minute `time`: without a first click or a
     * selected date nothing changes; otherwise the preview end moves to
     * `time` and the selection spans the first point and `time`, in order.
     */
    method HandleTimelineMove(selectedDate: Option<int>, time: int)
      requires Valid()
      modifies this
      ensures Valid()
      ensures old(firstClickPoint).None? || selectedDate.None? ==>
        && selecting == old(selecting) && selectedSlot == old(selectedSlot)
        && selectionStart == old(selectionStart) && selectionEnd == old(selectionEnd)
        && firstClickPoint == old(firstClickPoint) && previewEnd == old(previewEnd)
      ensures old(firstClickPoint).Some? && selectedDate.Some? ==>
        && previewEnd == Some(time)
        && selectionStart == Some(Ordered(old(firstClickPoint).value, time).0)
        && selectionEnd == Some(Ordered(old(firstClickPoint).value, time).1)
        && selecting == old(selecting) && selectedSlot == old(selectedSlot)
        && firstClickPoint == old(firstClickPoint)
    {
      if firstClickPoint.None? || selectedDate.None? {
        return;
      }
      previewEnd := Some(time);
      var start := firstClickPoint.value;
      var end := time;
      if start > end {
        start, end := end, start;
      }
      selectionStart := Some(start);
      selectionEnd := Some(end);
    }
  }

  /**
   * A selection that starts at or after `now` never overlaps the past window
   * of any selected day, except a window collapsed to the single point
   * midnight, which a selection starting exactly then does overlap.
   */
  lemma PastWindowClearsFuture(day: int, now: int, start: int, end: int)
    requires now <= start < end
    requires now < start || DayStart(now) < now
    ensures var past := PastTimeSlot(Some(day), now);
            past.Some? ==> !IsTimeOverlap(start, end, past.value.start, past.value.end)
  {
    SameDayIffSameStart(day, now);
  }

  /**
   * At midnight of today the past window is the single point `now`, and a
   * selection starting exactly then counts as overlapping it.
   */
  lemma MidnightWindowBlocksMidnightStart(day: int, now: int, end: int)
    requires SameDay(day, now) && DayStart(now) == now && now < end
    ensures PastTimeSlot(Some(day), now) == Some(Slot(now, now))
    ensures !IsValidSelection(Some(now), Some(end), now, PastTimeSlot(Some(day), now), [])
  {
    SameDayIffSameStart(day, now);
  }

  /**
   * Two clicks, in either order, at least the minimum duration apart on a
   * stretch of the future that no drawn booking overlaps, choose exactly that
   * stretch, with the past window computed for the selected day.
   */
  method TwoClicksChooseSlot(day: int, first: int, second: int, now: int, booked: seq<BookedSlot>) returns (s: Selection)
    requires var (start, end) := Ordered(first, second);
             now <= start && start + MIN_BOOKING_DURATION <= end && (now < start || DayStart(now) < now)
    requires var (start, end) := Ordered(first, second);
             forall i :: 0 <= i < |booked| ==> !IsTimeOverlap(start, end, booked[i].start, booked[i].end)
    ensures var (start, end) := Ordered(first, second);
            s.selectedSlot == Some(Slot(start, end)) && !s.selecting && s.firstClickPoint.None?
  {
    var past := PastTimeSlot(Some(day), now);
    PastWindowClearsFuture(day, now, Ordered(first, second).0, Ordered(first, second).1);
    s := new Selection();
    s.HandleTimelineClick(Some(day), first, now, past, booked);
    s.HandleTimelineClick(Some(day), second, now, past, booked);
  }
}
