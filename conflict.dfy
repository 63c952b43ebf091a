/**
 * The booking conflict query shared by backend/services/booking_service.py
 * and backend/routers/bookings.py, and the no-double-booking invariant it
 * protects.
 */
module Conflict {
  import opened Wrappers
  import opened Models
  import opened Table

  /** The standard half-open overlap test of [s, e) and [cs, ce). */
  predicate Overlaps(s: int, e: int, cs: int, ce: int) {
    s < ce && cs < e
  }

  /**
   * The three clauses of the conflict filter, for an existing booking [s, e)
   * and a candidate [cs, ce): it contains the candidate's start, it covers the
   * candidate's end, or it lies inside the candidate.
   */
  function Clauses(s: int, e: int, cs: int, ce: int): (r: bool)
    ensures s < e && cs < ce ==> (r <==> Overlaps(s, e, cs, ce))
  {
    (s <= cs && e > cs) || (s < ce && e >= ce) || (s >= cs && e <= ce)
  }

  /**
   * For well-formed intervals: back-to-back bookings do not conflict, identical
   * or containing ones do, and the test is symmetric.
   */
  lemma ClausesBoundaries(s: int, e: int, cs: int, ce: int)
    requires s < e && cs < ce
    ensures e == cs ==> !Clauses(s, e, cs, ce)
    ensures s == ce ==> !Clauses(s, e, cs, ce)
    ensures s == cs && e == ce ==> Clauses(s, e, cs, ce)
    ensures s <= cs && ce <= e ==> Clauses(s, e, cs, ce)
    ensures cs <= s && e <= ce ==> Clauses(s, e, cs, ce)
    ensures Clauses(s, e, cs, ce) == Clauses(cs, ce, s, e)
  {
  }

  predicate Active(b: Booking) {
    b.status != CANCELLED
  }

  /** The filter of the conflict query: same room, not cancelled, one of the clauses, not the excluded id. */
  predicate Matches(b: Booking, roomId: int, cs: int, ce: int, excludeId: Option<int>) {
    && b.roomId == roomId
    && b.status != CANCELLED
    && Clauses(b.startTime, b.endTime, cs, ce)
    && !(IsTruthy(excludeId) && b.id == excludeId.value)
  }

  /** `query.first()` of the conflict query over the rows in table order. */
  function FirstConflict(rows: seq<Booking>, roomId: int, cs: int, ce: int, excludeId: Option<int>): (r: Option<Booking>)
    ensures r.Some? ==> r.value in rows && Matches(r.value, roomId, cs, ce, excludeId)
    ensures r.None? <==> forall i :: 0 <= i < |rows| ==> !Matches(rows[i], roomId, cs, ce, excludeId)
  {
    if |rows| == 0 then None
    else if Matches(rows[0], roomId, cs, ce, excludeId) then Some(rows[0])
    else FirstConflict(rows[1..], roomId, cs, ce, excludeId)
  }

  /** `query.first() is not None`. */
  predicate HasConflict(rows: seq<Booking>, roomId: int, cs: int, ce: int, excludeId: Option<int>) {
    FirstConflict(rows, roomId, cs, ce, excludeId).Some?
  }

  /** Bookings of other rooms and cancelled bookings never make a conflict, wherever they sit in the table. */
  lemma InactiveNeverConflicts(a: seq<Booking>, x: Booking, b: seq<Booking>, roomId: int, cs: int, ce: int, excludeId: Option<int>)
    requires x.roomId != roomId || x.status == CANCELLED
    ensures HasConflict(a + [x] + b, roomId, cs, ce, excludeId) == HasConflict(a + b, roomId, cs, ce, excludeId)
  {
    var full, rest := a + [x] + b, a + b;
    if HasConflict(rest, roomId, cs, ce, excludeId) {
      var i :| 0 <= i < |rest| && Matches(rest[i], roomId, cs, ce, excludeId);
      var i' := if i < |a| then i else i + 1;
      assert full[i'] == rest[i];
    }
    if HasConflict(full, roomId, cs, ce, excludeId) {
      var i :| 0 <= i < |full| && Matches(full[i], roomId, cs, ce, excludeId);
      assert i != |a|;
      var i' := if i < |a| then i else i - 1;
      assert rest[i'] == full[i];
    }
  }

  /** An exclusion id of `None` or `0` excludes nothing. */
  lemma {:induction false} FalsyExcludesNothing(rows: seq<Booking>, roomId: int, cs: int, ce: int, excludeId: Option<int>)
    requires !IsTruthy(excludeId)
    ensures FirstConflict(rows, roomId, cs, ce, excludeId) == FirstConflict(rows, roomId, cs, ce, None)
  {
    if |rows| > 0 {
      FalsyExcludesNothing(rows[1..], roomId, cs, ce, excludeId);
    }
  }

  /**
   * When every stored interval is well-formed, the query finds a conflict
   * exactly when an active booking of the room (other than the excluded one)
   * overlaps the candidate in the standard half-open sense.
   */
  lemma ConflictIffOverlap(rows: seq<Booking>, roomId: int, cs: int, ce: int, excludeId: Option<int>)
    requires cs < ce
    requires WellFormed(rows)
    ensures HasConflict(rows, roomId, cs, ce, excludeId) <==>
      exists i :: 0 <= i < |rows| && rows[i].roomId == roomId && Active(rows[i])
        && !(IsTruthy(excludeId) && rows[i].id == excludeId.value)
        && Overlaps(rows[i].startTime, rows[i].endTime, cs, ce)
  {
  }

  /** Every stored interval has its start before its end. */
  predicate WellFormed(rows: seq<Booking>) {
    forall i :: 0 <= i < |rows| ==> rows[i].startTime < rows[i].endTime
  }

  /**
   * The invariant the conflict check maintains, stated the way the check sees
   * the table: no active booking clashes, by the three clauses, with an active
   * booking of the same room stored before it.
   */
  predicate NoLaterClash(rows: seq<Booking>) {
    forall i, j :: 0 <= i < j < |rows| && rows[i].roomId == rows[j].roomId && Active(rows[i]) && Active(rows[j]) ==>
      !Clauses(rows[i].startTime, rows[i].endTime, rows[j].startTime, rows[j].endTime)
  }

  /** The headline invariant: active bookings of one room are pairwise non-overlapping. */
  predicate PairwiseDisjoint(rows: seq<Booking>) {
    forall i, j ::
      (0 <= i < |rows| && 0 <= j < |rows| && i != j && rows[i].roomId == rows[j].roomId
       && Active(rows[i]) && Active(rows[j])) ==>
      !Overlaps(rows[i].startTime, rows[i].endTime, rows[j].startTime, rows[j].endTime)
  }

  /** For well-formed intervals the ordered invariant is exactly pairwise disjointness. */
  lemma NoLaterClashIsDisjointness(rows: seq<Booking>)
    requires WellFormed(rows)
    ensures NoLaterClash(rows) <==> PairwiseDisjoint(rows)
  {
    if NoLaterClash(rows) {
      forall i, j | 0 <= i < |rows| && 0 <= j < |rows| && i != j && rows[i].roomId == rows[j].roomId
        && Active(rows[i]) && Active(rows[j])
        ensures !Overlaps(rows[i].startTime, rows[i].endTime, rows[j].startTime, rows[j].endTime)
      {
        if i > j {
          assert !Clauses(rows[j].startTime, rows[j].endTime, rows[i].startTime, rows[i].endTime);
        }
      }
    }
  }

  /** Appending a booking the conflict query did not reject keeps the invariant. */
  lemma AppendKeepsNoLaterClash(rows: seq<Booking>, x: Booking, excludeId: Option<int>)
    requires NoLaterClash(rows)
    requires !HasConflict(rows, x.roomId, x.startTime, x.endTime, excludeId)
    requires !IsTruthy(excludeId)
    ensures NoLaterClash(rows + [x])
  {
    var r := rows + [x];
    forall i, j | 0 <= i < j < |r| && r[i].roomId == r[j].roomId && Active(r[i]) && Active(r[j])
      ensures !Clauses(r[i].startTime, r[i].endTime, r[j].startTime, r[j].endTime)
    {
      if j == |rows| {
        assert !Matches(rows[i], x.roomId, x.startTime, x.endTime, excludeId);
      } else {
        assert r[i] == rows[i] && r[j] == rows[j];
      }
    }
  }

  /** A booking with its status set to "cancelled". */
  function Cancelled(b: Booking): (c: Booking)
    ensures !Active(c)
    ensures c == b.(status := CANCELLED)
  {
    b.(status := CANCELLED)
  }

  /** Cancelling a booking keeps the invariant. */
  lemma CancelKeepsNoLaterClash(rows: seq<Booking>, k: nat)
    requires k < |rows|
    requires NoLaterClash(rows)
    ensures NoLaterClash(rows[k := Cancelled(rows[k])])
  {
    var r := rows[k := Cancelled(rows[k])];
    forall i, j | 0 <= i < j < |r| && r[i].roomId == r[j].roomId && Active(r[i]) && Active(r[j])
      ensures !Clauses(r[i].startTime, r[i].endTime, r[j].startTime, r[j].endTime)
    {
      assert r[i] == rows[i] && r[j] == rows[j];
    }
  }

  /** Deleting a booking keeps the invariant. */
  lemma RemoveKeepsNoLaterClash(rows: seq<Booking>, k: nat)
    requires k < |rows|
    requires NoLaterClash(rows)
    ensures NoLaterClash(RemoveAt(rows, k))
  {
    var r := RemoveAt(rows, k);
    forall i, j | 0 <= i < j < |r| && r[i].roomId == r[j].roomId && Active(r[i]) && Active(r[j])
      ensures !Clauses(r[i].startTime, r[i].endTime, r[j].startTime, r[j].endTime)
    {
      var i' := if i < k then i else i + 1;
      var j' := if j < k then j else j + 1;
      assert r[i] == rows[i'] && r[j] == rows[j'];
    }
  }

  /**
   * Once booking `k` is cancelled, a candidate conflicts only if some other
   * booking makes it conflict: a cancelled interval is bookable again.
   */
  lemma CancelFreesInterval(rows: seq<Booking>, k: nat, roomId: int, cs: int, ce: int, excludeId: Option<int>)
    requires k < |rows|
    ensures HasConflict(rows[k := Cancelled(rows[k])], roomId, cs, ce, excludeId) <==>
      exists i :: 0 <= i < |rows| && i != k && Matches(rows[i], roomId, cs, ce, excludeId)
  {
    var r := rows[k := Cancelled(rows[k])];
    if HasConflict(r, roomId, cs, ce, excludeId) {
      var i :| 0 <= i < |r| && Matches(r[i], roomId, cs, ce, excludeId);
      assert i != k && r[i] == rows[i];
    }
    if exists i :: 0 <= i < |rows| && i != k && Matches(rows[i], roomId, cs, ce, excludeId) {
      var i :| 0 <= i < |rows| && i != k && Matches(rows[i], roomId, cs, ce, excludeId);
      assert r[i] == rows[i];
    }
  }
}
