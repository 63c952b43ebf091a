/**
 * The front end's booking constants (frontend/src/constants/booking.js): the
 * status values, their display labels and tag types, and the timeline
 * configuration.
 */
module BookingConstants {
  import Models
  import TimeUtils

  const PENDING := "pending"
  const CONFIRMED := "confirmed"
  const CANCELLED := "cancelled"

  const STATUS_TEXT: map<string, string> := map[PENDING := "待确认", CONFIRMED := "已确认", CANCELLED := "已取消"]
  const STATUS_TYPE: map<string, string> := map[PENDING := "info", CONFIRMED := "success", CANCELLED := "danger"]

  const TOTAL_CELLS := 48
  const CELL_UNIT := 30
  const TRACK_HEIGHT := 120

  /** The three statuses are distinct and are the backend's own status strings. */
  lemma StatusValues()
    ensures PENDING != CONFIRMED && CONFIRMED != CANCELLED && PENDING != CANCELLED
    ensures PENDING == Models.PENDING && CONFIRMED == Models.CONFIRMED && CANCELLED == Models.CANCELLED
  {
  }

  /** The timeline's cells cover exactly one day. */
  lemma TimelineCoversDay()
    ensures TOTAL_CELLS * CELL_UNIT == TimeUtils.MINUTES_PER_DAY
  {
  }

  /** `getStatusText`: the label of a known status; any other status is shown as it is. */
  function GetStatusText(status: string): (r: string)
    ensures status == PENDING ==> r == "待确认"
    ensures status == CONFIRMED ==> r == "已确认"
    ensures status == CANCELLED ==> r == "已取消"
    ensures status !in {PENDING, CONFIRMED, CANCELLED} ==> r == status
  {
    // `STATUS_TEXT[status] || status`: an absent or empty label falls back
    if status in STATUS_TEXT && STATUS_TEXT[status] != "" then STATUS_TEXT[status] else status
  }

  /** `getStatusType`: the tag type of a known status; 'info' for anything else. */
  function GetStatusType(status: string): (r: string)
    ensures status == PENDING ==> r == "info"
    ensures status == CONFIRMED ==> r == "success"
    ensures status == CANCELLED ==> r == "danger"
    ensures status !in {PENDING, CONFIRMED, CANCELLED} ==> r == "info"
  {
    if status in STATUS_TYPE && STATUS_TYPE[status] != "" then STATUS_TYPE[status] else "info"
  }

  /** Distinct statuses that are not themselves labels get distinct texts. */
  lemma LabelsDistinguishStatuses(s1: string, s2: string)
    requires s1 !in STATUS_TEXT.Values && s2 !in STATUS_TEXT.Values
    ensures GetStatusText(s1) == GetStatusText(s2) ==> s1 == s2
  {
    assert STATUS_TEXT.Values == {"待确认", "已确认", "已取消"} by {
      assert STATUS_TEXT[PENDING] == "待确认" && STATUS_TEXT[CONFIRMED] == "已确认" && STATUS_TEXT[CANCELLED] == "已取消";
    }
  }
}
