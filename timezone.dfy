/**
 * Time-zone handling of the backend (backend/utils/timezone.py).
 *
 * A Python `datetime` is a wall-clock reading plus an optional UTC offset;
 * without an offset it is "naive". Two aware datetimes compare by the UTC
 * instant they denote, `wall - offset`. Times are integer ticks.
 */
module Timezone {
  import opened Wrappers

  datatype DateTime = DateTime(wall: int, offset: Option<int>)

  /** The offset of `timezone.utc`. */
  const UTC: int := 0

  predicate IsAware(dt: DateTime) {
    dt.offset.Some?
  }

  /** The UTC instant an aware datetime denotes. */
  function Instant(dt: DateTime): int
    requires IsAware(dt)
  {
    dt.wall - dt.offset.value
  }

  /** `make_aware`: a naive value is tagged as UTC, keeping its wall clock; an aware one is returned as it is. */
  function MakeAware(dt: Option<DateTime>): (r: Option<DateTime>)
    ensures dt.None? <==> r.None?
    ensures dt.Some? ==> IsAware(r.value) && r.value.wall == dt.value.wall
    ensures dt.Some? && !IsAware(dt.value) ==> r.value.offset == Some(UTC) && Instant(r.value) == dt.value.wall
    ensures dt.Some? && IsAware(dt.value) ==> r == dt
  {
    match dt
    case None => None
    case Some(d) => if d.offset.None? then Some(d.(offset := Some(UTC))) else dt
  }

  /** `make_naive`: the offset is dropped WITHOUT converting to UTC; the wall clock is kept. */
  function MakeNaive(dt: Option<DateTime>): (r: Option<DateTime>)
    ensures dt.None? <==> r.None?
    ensures dt.Some? ==> !IsAware(r.value) && r.value.wall == dt.value.wall
    ensures dt.Some? && !IsAware(dt.value) ==> r == dt
  {
    match dt
    case None => None
    case Some(d) => if d.offset.Some? then Some(d.(offset := None)) else dt
  }

  /** A naive value survives the trip through `make_aware` and back through `make_naive`. */
  lemma NaiveRoundTrip(dt: Option<DateTime>)
    requires dt.None? || !IsAware(dt.value)
    ensures MakeNaive(MakeAware(dt)) == dt
  {
  }

  /** Both conversions are idempotent. */
  lemma ConversionsIdempotent(dt: Option<DateTime>)
    ensures MakeAware(MakeAware(dt)) == MakeAware(dt)
    ensures MakeNaive(MakeNaive(dt)) == MakeNaive(dt)
  {
  }

  /**
   * What the backend stores for an incoming datetime, `make_naive(make_aware(x))`,
   * is always its wall-clock reading, whatever its offset: a value sent with a
   * non-UTC offset is stored as local wall-clock time, not as the UTC instant.
   */
  lemma StoredIsWallClock(dt: DateTime)
    ensures MakeNaive(MakeAware(Some(dt))) == Some(DateTime(dt.wall, None))
    ensures IsAware(dt) && dt.offset.value != UTC ==> MakeNaive(MakeAware(Some(dt))).value.wall != Instant(dt)
  {
  }

  /** A field value of an ORM object, as far as `add_timezone_to_object` distinguishes them. */
  datatype Value = NoneValue | DateTimeValue(dt: DateTime) | OtherValue(text: string)

  /** The update `add_timezone_to_object` applies to one present field. */
  function TagValue(v: Value): (r: Value)
    ensures v.DateTimeValue? && !IsAware(v.dt) ==> r == DateTimeValue(MakeAware(Some(v.dt)).value)
    ensures !(v.DateTimeValue? && !IsAware(v.dt)) ==> r == v
  {
    if v.DateTimeValue? && v.dt.offset.None? then DateTimeValue(v.dt.(offset := Some(UTC))) else v
  }

  /** The attributes of an object after `add_timezone_to_object(obj, *fields)`. */
  function TagFields(attrs: map<string, Value>, fields: seq<string>): (r: map<string, Value>)
    ensures r.Keys == attrs.Keys
  {
    map f | f in attrs :: if f in fields then TagValue(attrs[f]) else attrs[f]
  }

  /**
   * Only listed fields change, and among them only naive datetimes, which get
   * the UTC tag and keep their wall clock; tagging again changes nothing.
   */
  lemma TagFieldsEffect(attrs: map<string, Value>, fields: seq<string>, f: string)
    requires f in attrs
    ensures f !in fields ==> TagFields(attrs, fields)[f] == attrs[f]
    ensures !(attrs[f].DateTimeValue? && !IsAware(attrs[f].dt)) ==> TagFields(attrs, fields)[f] == attrs[f]
    ensures f in fields && attrs[f].DateTimeValue? && !IsAware(attrs[f].dt) ==>
      TagFields(attrs, fields)[f] == DateTimeValue(DateTime(attrs[f].dt.wall, Some(UTC)))
  {
  }

  /** Tagging the same fields twice is the same as tagging them once. */
  lemma TagFieldsIdempotent(attrs: map<string, Value>, fields: seq<string>)
    ensures TagFields(TagFields(attrs, fields), fields) == TagFields(attrs, fields)
  {
  }

  /** An ORM object whose attributes are set in place with `setattr`. */
  class Record {
    var attrs: map<string, Value>

    constructor (attrs: map<string, Value>)
      ensures this.attrs == attrs
    {
      this.attrs := attrs;
    }
  }

  /** `add_timezone_to_object`: tags each listed, present, naive datetime field as UTC; returns the object. */
  method AddTimezoneToObject(obj: Record, fields: seq<string>) returns (r: Record)
    modifies obj
    ensures r == obj
    ensures obj.attrs == TagFields(old(obj.attrs), fields)
  {
    var i := 0;
    while i < |fields|
      invariant 0 <= i <= |fields|
      invariant obj.attrs == TagFields(old(obj.attrs), fields[..i])
    {
      var f := fields[i];
      if f in obj.attrs {
        var value := obj.attrs[f];
        if value.DateTimeValue? && value.dt.offset.None? {
          obj.attrs := obj.attrs[f := DateTimeValue(value.dt.(offset := Some(UTC)))];
        }
      }
      assert fields[..i + 1] == fields[..i] + [f];
      i := i + 1;
    }
    assert fields[..i] == fields;
    return obj;
  }

  /** `add_timezone_to_list`: applies the tagging to every object and returns the same list. */
  method AddTimezoneToList(objects: seq<Record>, fields: seq<string>) returns (r: seq<Record>)
    modifies set o | o in objects
    ensures r == objects
    ensures forall o :: o in objects ==> o.attrs == TagFields(old(o.attrs), fields)
  {
    var i := 0;
    while i < |objects|
      invariant 0 <= i <= |objects|
      invariant forall o :: o in objects ==>
        o.attrs == if o in objects[..i] then TagFields(old(o.attrs), fields) else old(o.attrs)
    {
      var obj := objects[i];
      if obj in objects[..i] {
        TagFieldsIdempotent(old(obj.attrs), fields);
      }
      var _ := AddTimezoneToObject(obj, fields);
      assert objects[..i + 1] == objects[..i] + [obj];
      i := i + 1;
    }
    assert objects[..i] == objects;
    return objects;
  }
}
