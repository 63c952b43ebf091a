# Meeting-room booking: a Dafny model of the booking core

The system lets users book meeting rooms in half-hour steps. The backend is a
FastAPI service that keeps three tables: users, rooms and bookings. The front
end is a Vue app that draws one day as a 48-cell timeline and chooses a slot
with two clicks. This project models the rules the system relies on and proves
them:

- **Conflict query** (`Conflict`). The query works on the stored wall-clock
  start and end of each booking. It has three clauses. For well-formed
  intervals they mean the ordinary half-open overlap test. Cancelled bookings
  and bookings of other rooms never conflict. The exclusion id applies only
  when it is truthy.
- **Headline invariant** (`Conflict.NoLaterClash`). No active booking of a
  room clashes with an earlier active booking of the same room. On
  well-formed tables this is the same as pairwise disjointness
  (`Conflict.PairwiseDisjoint`). Creating, cancelling and deleting bookings
  all keep it.
- **Booking service and booking router** (`BookingService`, `BookingRouter`).
  Both run the validation chain in a fixed order: user, room, availability,
  range, past, conflict. The service converts the request's datetimes first.
  The router compares them as given. The store is a `Store.Database` object
  whose table fields the operations update.
- **Time-zone helpers** (`Timezone`). A datetime is a wall-clock reading plus
  an optional UTC offset. `make_naive` drops the offset without converting.
  So a request sent with a non-UTC offset is stored as local wall-clock
  time. `Timezone.StoredIsWallClock` and
  `BookingService.MixedOffsetsStoreReversedInterval` make this visible: a
  request whose endpoints carry different offsets can be accepted and stored
  with its wall-clock start after its end. The model keeps this behaviour.
- **Guard validators** (`Validators`). This includes the email check that
  looks only at `split('@')[1]`.
- **Rooms and users** (`RoomService`, `RoomRouter`, `UserService`,
  `UserRouter`). Each operation keeps its table's unique keys unique, and
  the bookings' references to their user and room stay valid.
  - A room or user that any booking refers to cannot be deleted: the ORM
    nulls the bookings' foreign key, the NOT NULL column rejects the commit,
    and the request fails as a server error with nothing removed.
  - The router's room update has no name check. A rename onto another room's
    name reaches the unique index and fails as a server error, where the
    service answers 400.
  - The router's `get_booking`, `cancel_booking` and `delete_booking` run the
    service's steps, so the `BookingService` members model them.
  - The same holds for the room router's `create_room`, `get_room` and
    `delete_room`, and for the user router's `create_user` and `delete_user`.
  - `get_bookings`, `get_rooms` and `get_users` are all
    `query.offset(skip).limit(limit).all()`, which `Table.Page` models.
- **Front-end time logic** (`TimeUtils`, `BookingData`, `TimelineSelection`,
  `BookingConstants`):
  - the interval overlap test;
  - the cell labels and the duration text, with a round trip back to minutes;
  - the past window and the drawn bookings of the selected day;
  - the two-click selection state machine, a class with six fields;
  - the status labels.

Modelling choices:

- Backend times are integer ticks. Front-end times are whole minutes on the
  browser's local clock.
- The current time (`now`), the row clock (`clock`) and the password hash
  (`hash`) are parameters.
- Tables are sequences in insertion order. A new row's id is one more than
  every id in its table.

## Model

| member | source | states |
|---|---|---|
| Conflict.Clauses | backend/services/booking_service.py:49-53 | for well-formed intervals the three clauses hold exactly when the existing booking and the candidate overlap (s < E and S < e) |
| Conflict.ClausesBoundaries | backend/services/booking_service.py:49-53 | back-to-back intervals do not conflict; identical or containing intervals do; the test is symmetric |
| Conflict.FirstConflict | backend/services/booking_service.py:46-60 | a result is a booking of the room, not cancelled, meeting a clause and not excluded; no result exactly when no row matches |
| Conflict.InactiveNeverConflicts | backend/services/booking_service.py:47-48 | inserting a cancelled booking or one of another room anywhere in the table never changes the conflict answer |
| Conflict.FalsyExcludesNothing | backend/services/booking_service.py:56-57 | an exclusion id of None or 0 gives the same result as no exclusion |
| Conflict.ConflictIffOverlap | backend/routers/bookings.py:12-27 | on well-formed tables a conflict is found exactly when an active, non-excluded booking of the room overlaps the candidate |
| Conflict.NoLaterClashIsDisjointness | backend/services/booking_service.py:105-106 | on well-formed tables the invariant the check keeps is exactly pairwise disjointness of active bookings per room |
| Conflict.AppendKeepsNoLaterClash | backend/services/booking_service.py:133-143 | appending a booking the conflict query let through keeps the invariant |
| Conflict.Cancelled | backend/services/booking_service.py:247 | the cancelled booking is no longer active and differs from the original only in its status |
| Conflict.CancelKeepsNoLaterClash | backend/services/booking_service.py:247-248 | setting one booking's status to cancelled keeps the invariant |
| Conflict.RemoveKeepsNoLaterClash | backend/services/booking_service.py:269-270 | removing one booking keeps the invariant |
| Conflict.CancelFreesInterval | backend/services/booking_service.py:242-250 | after a cancellation a candidate conflicts only through some other booking |
| BookingService.CheckTimeConflict | backend/services/booking_service.py:22-60 | true exactly when some row matches the candidate's wall-clock endpoints |
| BookingService.ValidateBookingData | backend/services/booking_service.py:63-108 | each of the six errors is returned exactly when every earlier check passes and its own check fails; on success it returns the found user and room |
| BookingService.Aware | backend/services/booking_service.py:126-127 | the aware endpoint keeps the wall clock, and a naive one denotes its wall clock as a UTC instant |
| BookingService.RangeAndPastBoundaries | backend/utils/validators.py:23-44 | equal endpoints are always an invalid range; a start exactly at now is never past |
| BookingService.SameOffsetStoresWellFormed | backend/services/booking_service.py:126-137 | with equal offsets an accepted request is stored with its start before its end |
| BookingService.MixedOffsetsStoreReversedInterval | backend/services/booking_service.py:126-137 | a request from 10:00 at UTC+8 to 03:00 at UTC is accepted and stored with its wall-clock start after its end |
| BookingService.CreateBooking | backend/services/booking_service.py:111-146 | failure leaves the table unchanged; success appends exactly one confirmed booking with the given user, room and purpose, make_naive(make_aware(x)) endpoints and a fresh id; keeps the invariant, unique ids and the bookings' user and room references |
| BookingService.AppendKeepsReferences | backend/services/booking_service.py:85-92 | a new booking whose user and room were found keeps every booking's user and room stored |
| BookingService.GetBookingById | backend/services/booking_service.py:149-169 | returns a booking with that id, or 404 exactly when no row has it |
| BookingService.CancelBooking | backend/services/booking_service.py:225-250 | 404 for a missing id; 400 with nothing changed when already cancelled; otherwise only that booking's status changes; keeps the invariant |
| BookingService.DeleteBooking | backend/services/booking_service.py:253-272 | 404 for a missing id; otherwise exactly that booking is removed whatever its status; keeps the invariant |
| BookingRouter.CheckTimeConflict | backend/routers/bookings.py:12-27 | the same clauses, room filter, status filter and truthy exclusion as the service, on the raw values |
| BookingRouter.ValidateRequest | backend/routers/bookings.py:31-53 | succeeds exactly when the user and an available room exist, now <= start < end, and no conflict is found |
| BookingRouter.RouterAgreesWithService | backend/routers/bookings.py:31-53 | on naive input the router's checks give the same outcome, error for error, as the service's |
| BookingRouter.CreateBooking | backend/routers/bookings.py:29-67 | failure leaves the table unchanged; success appends one confirmed booking holding the request's endpoints unchanged; keeps the invariant, well-formedness, unique ids and the bookings' user and room references |
| BookingRouter.ShiftedRequestConflicts | test_api_simple.py:184-200 | a request shifted 30 minutes later than a live booking longer than 30 minutes is refused as a conflict |
| Timezone.MakeAware | backend/utils/timezone.py:12-26 | None stays None; a naive value is tagged UTC with its wall clock kept; an aware value is returned unchanged |
| Timezone.MakeNaive | backend/utils/timezone.py:29-44 | None stays None; the offset is dropped and the wall clock kept; a naive value is returned unchanged |
| Timezone.NaiveRoundTrip | backend/utils/timezone.py:12-44 | make_naive(make_aware(x)) == x for naive x |
| Timezone.ConversionsIdempotent | backend/utils/timezone.py:12-44 | both conversions are idempotent |
| Timezone.StoredIsWallClock | backend/utils/timezone.py:42-43 | the stored value is the wall clock, which differs from the UTC instant for any non-UTC offset |
| Timezone.TagValue | backend/utils/timezone.py:67-69 | only a naive datetime changes, and it gets the UTC tag |
| Timezone.TagFieldsEffect | backend/utils/timezone.py:65-70 | an unlisted field or a value that is not a naive datetime is untouched; a listed naive datetime gets the UTC tag with its wall clock |
| Timezone.TagFieldsIdempotent | backend/utils/timezone.py:57-70 | tagging the same fields twice equals tagging them once |
| Timezone.AddTimezoneToObject | backend/utils/timezone.py:57-70 | the object's attributes become the tagged attributes, and the same object is returned |
| Timezone.AddTimezoneToList | backend/utils/timezone.py:73-86 | every object in the list is tagged once and the same list is returned |
| Validators.ValidateTimeRange | backend/utils/validators.py:12-27 | fails exactly when start >= end, with the range error |
| Validators.ValidateFutureTime | backend/utils/validators.py:30-44 | fails exactly when time < now, with the past-time error |
| Validators.ValidatePositiveNumber | backend/utils/validators.py:47-62 | fails exactly when value <= 0, with a message naming the field |
| Validators.ValidateStringNotEmpty | backend/utils/validators.py:65-80 | fails exactly when the string is empty or all whitespace |
| Validators.SplitSecondIsDomainSegment | backend/utils/validators.py:93 | split('@')[1] is the text between the first '@' and the next '@' or the end |
| Validators.ValidateEmailFormat | backend/utils/validators.py:83-97 | fails exactly when the email is empty, has no '@', or has no '.' in the segment after the first '@' |
| Validators.SecondAtHidesDomain | backend/utils/validators.py:93 | "a@b@c.d" is rejected |
| Validators.DotBeforeAtIgnored | backend/utils/validators.py:93 | "a.b@c" is rejected |
| Validators.OrdinaryEmailPasses | backend/utils/validators.py:93-97 | "me@x.cn" passes |
| Text.StripEmptyIffAllSpace | backend/utils/validators.py:76 | strip() gives "" exactly when every character is whitespace |
| Models.NewUser | backend/models.py:6-17 | a new user is active and gets its fields and the clock as created_at |
| Models.NewRoom | backend/models.py:19-30 | a new room is available and gets its fields and the clock as created_at |
| Models.NewBooking | backend/models.py:32-45 | a new booking's status defaults to "pending"; its required fields are the ones given |
| Models.Overwrite | backend/services/room_service.py:123-126 | only name, location, capacity and description change; id, availability and created_at are kept |
| Table.IndexOfKey | backend/services/booking_service.py:166 | the first row with the key, or none exactly when no row has it |
| Table.NextId | backend/models.py:9 | the new id is positive and larger than every id in the table |
| Table.Page | backend/services/booking_service.py:172-188 | the page is the slice of at most `limit` rows starting at `skip`, in table order |
| Table.PagesConcatenate | backend/services/room_service.py:98 | two consecutive pages together are the page that spans both |
| Table.UniqueAppend | backend/models.py:10-11 | appending a row whose key is new keeps the column unique |
| Table.UniqueRemove | backend/models.py:23 | removing a row keeps the column unique |
| Table.UniqueReplace | backend/services/room_service.py:119-126 | replacing a row by one whose key no other row holds keeps the column unique |
| Table.UniqueLookup | backend/models.py:9 | with unique keys, the row found by key is the only one holding it |
| RoomService.CheckRoomNameExists | backend/services/room_service.py:17-32 | true exactly when some room has the name and is not the room excluded by a truthy id |
| RoomService.OwnNameExcluded | backend/services/room_service.py:119-121 | a room's own name is taken, but not once the room itself is excluded |
| RoomService.CreateRoom | backend/services/room_service.py:35-63 | a taken name gives 400 with nothing changed; otherwise one available room is appended with the given fields and a fresh id; names and ids stay unique |
| RoomService.GetRoomById | backend/services/room_service.py:66-83 | returns a room with that id, or 404 exactly when no row has it |
| RoomService.UpdateRoom | backend/services/room_service.py:101-131 | 404 for a missing id; 400 with nothing changed when the name changes to one another room holds; otherwise the four fields are overwritten in place; names and ids stay unique |
| RoomService.UpdateKeepsNamesUnique | backend/services/room_service.py:119-126 | the service's rename check suffices to keep names and ids unique |
| RoomService.DeleteRoom | backend/services/room_service.py:134-148 | 404 for a missing id; a room any booking refers to fails at the NOT NULL room_id with nothing removed; otherwise exactly that room is removed; keeps names, ids and the bookings' room references valid |
| RoomService.RemoveUnusedRoomKeepsReferences | backend/models.py:37 | removing a room no booking refers to leaves every booking's room stored |
| RoomRouter.UpdateRoom | backend/routers/rooms.py:42-54 | 404 for a missing id; a rename onto another room's name fails at the unique index with nothing changed; otherwise the four fields are overwritten |
| RoomRouter.UpdateAgreesWithService | backend/routers/rooms.py:42-54 | the router fails at the index exactly when the service's name check would have answered 400 |
| RoomRouter.UpdateKeepsConsistent | backend/models.py:23 | the update the unique index lets through keeps names and ids unique |
| UserService.CheckUsernameExists | backend/services/user_service.py:48-59 | true exactly when some user has that username |
| UserService.CheckEmailExists | backend/services/user_service.py:62-73 | true exactly when some user has that email |
| UserService.CreateUser | backend/services/user_service.py:76-111 | a taken username gives 400 before the email is looked at; a taken email gives 400; otherwise one active user holding hash(password) is appended with a fresh id; usernames, emails and ids stay unique |
| UserService.GetUserById | backend/services/user_service.py:114-131 | returns a user with that id, or 404 exactly when no row has it |
| UserService.DeleteUser | backend/services/user_service.py:149-163 | 404 for a missing id; a user any booking refers to fails at the NOT NULL user_id with nothing removed; otherwise exactly that user is removed; keeps usernames, emails, ids and the bookings' user references valid |
| UserService.RemoveUnusedUserKeepsReferences | backend/models.py:36 | removing a user no booking refers to leaves every booking's user stored |
| UserRouter.TagCreatedAt | backend/routers/users.py:13-18 | a naive created_at gets the UTC tag with its wall clock; a missing or aware one is left alone; no other field changes |
| UserRouter.TagIsMakeAware | backend/routers/users.py:16-17 | the tagging is make_aware of created_at and is idempotent |
| UserRouter.AddTimezoneToUsers | backend/routers/users.py:13-18 | every user in the list is tagged in place, in order |
| UserRouter.GetUsers | backend/routers/users.py:49-51 | the requested page of users, each one tagged |
| UserRouter.GetUser | backend/routers/users.py:54-58 | 404 exactly when the service finds no such user; otherwise that user, tagged |
| TimeUtils.DayIsAllCells | frontend/src/utils/timeUtils.js:7-17 | a day is 1440 minutes, exactly 48 cells of 30 minutes |
| TimeUtils.MinuteRemainder | frontend/src/utils/timeUtils.js:59 | JavaScript's % 60: the remainder has the dividend's sign and the dividend minus it is a multiple of 60 |
| TimeUtils.FormatHour | frontend/src/utils/timeUtils.js:24-26 | for 0 <= h < 100 the two-digit hour followed by ":00"; always ends in ":00" |
| TimeUtils.GetCellTime | frontend/src/utils/timeUtils.js:56-61 | for cells 1..48 "HH:MM" with HH = (i-1) div 2 and MM "00" for odd cells and "30" for even ones |
| TimeUtils.FirstCell | frontend/src/utils/timeUtils.js:56-61 | cell 1 is "00:00" |
| TimeUtils.LastCell | frontend/src/utils/timeUtils.js:56-61 | cell 48 is "23:30" |
| TimeUtils.HourCellIsFormatHour | frontend/src/utils/timeUtils.js:24-61 | every odd cell carries the formatHour label of its hour |
| TimeUtils.GetTimeDuration | frontend/src/utils/timeUtils.js:69-83 | "" exactly when an endpoint is missing |
| TimeUtils.DurationHoursAndMinutes | frontend/src/utils/timeUtils.js:76-77 | hours and minutes both positive read "h小时m分钟" |
| TimeUtils.DurationWholeHours | frontend/src/utils/timeUtils.js:78-79 | whole hours read "h小时" |
| TimeUtils.DurationUnderAnHour | frontend/src/utils/timeUtils.js:80-81 | under an hour reads "m分钟" |
| TimeUtils.DurationRoundTrip | frontend/src/utils/timeUtils.js:69-83 | the duration text of a non-negative duration parses back to that duration |
| TimeUtils.NegativeDurationsCollide | frontend/src/utils/timeUtils.js:72-81 | minus ninety and minus thirty minutes both read "-30分钟" |
| TimeUtils.IsTimeOverlap | frontend/src/utils/timeUtils.js:199-205 | for well-formed intervals, start1 < end2 and end1 > start2 |
| TimeUtils.OverlapCases | frontend/src/utils/timeUtils.js:199-205 | symmetric; touching intervals do not overlap; identical and nested intervals do |
| TimeUtils.DayStart | frontend/src/utils/timeUtils.js:90-94 | midnight of the day: at most t, less than a day before it, a multiple of a day |
| TimeUtils.DayEnd | frontend/src/utils/timeUtils.js:101-105 | the last minute of the day of t |
| TimeUtils.SameDayIffSameStart | frontend/src/utils/timeUtils.js:113-115 | two times are on the same day exactly when their day starts agree |
| BookingData.PastTimeSlot | frontend/src/composables/useBookingData.js:11-35 | none without a date; today: midnight to now; earlier day: the whole day; later day: none |
| BookingData.PastWindowCoversPast | frontend/src/composables/useBookingData.js:19-34 | the window starts at the day's midnight, ends by now and covers every minute of the day before now |
| BookingData.SlotsOn | frontend/src/composables/useBookingData.js:42-52 | each drawn slot is a shown booking with its start and end copied |
| BookingData.ShownBookingsAreDrawn | frontend/src/composables/useBookingData.js:42-52 | every booking that is not cancelled and starts on the day is drawn |
| BookingData.SlotsOnConcat | frontend/src/composables/useBookingData.js:42-52 | the filter keeps the original order |
| BookingData.BookedSlots | frontend/src/composables/useBookingData.js:38-53 | empty without a date or a booking list; otherwise the day's drawn bookings |
| TimelineSelection.OverlapsAny | frontend/src/composables/useTimelineSelection.js:46-53 | true exactly when the selection overlaps some drawn booking |
| TimelineSelection.IsValidSelection | frontend/src/composables/useTimelineSelection.js:25-54 | true exactly when both ends are set, now <= start < end, and the selection overlaps neither the past window nor any drawn booking |
| TimelineSelection.ValidSelectionIsFree | frontend/src/composables/useTimelineSelection.js:25-54 | a valid selection shares no minute with a drawn booking or the past window |
| TimelineSelection.Ordered | frontend/src/composables/useTimelineSelection.js:74-80 | the two clicked points in order |
| TimelineSelection.Selection.constructor | frontend/src/composables/useTimelineSelection.js:17-22 | the six fields start idle |
| TimelineSelection.Selection.ClearSelection | frontend/src/composables/useTimelineSelection.js:143-150 | all six fields reset |
| TimelineSelection.Selection.CancelSelection | frontend/src/composables/useTimelineSelection.js:133-140 | all six fields reset |
| TimelineSelection.Selection.ClearPreview | frontend/src/composables/useTimelineSelection.js:128-130 | only previewEnd is cleared |
| TimelineSelection.Selection.HandleTimelineClick | frontend/src/composables/useTimelineSelection.js:57-103 | no date: nothing changes; first click: selection starts at the point; second click: too short or invalid resets everything, otherwise the ordered pair becomes the chosen slot |
| TimelineSelection.Selection.HandleTimelineMove | frontend/src/composables/useTimelineSelection.js:106-125 | without a first click or a date nothing changes; otherwise previewEnd moves and the selection spans the ordered points, leaving selectedSlot alone |
| TimelineSelection.PastWindowClearsFuture | frontend/src/composables/useBookingData.js:11-35 | a selection starting at or after now misses the past window of any day, unless that window is the single point midnight |
| TimelineSelection.MidnightWindowBlocksMidnightStart | frontend/src/composables/useTimelineSelection.js:34-43 | at midnight today's past window is the point now, and a selection starting then is refused |
| TimelineSelection.TwoClicksChooseSlot | frontend/src/composables/useTimelineSelection.js:57-103 | two clicks in either order, at least 30 minutes apart on a stretch no drawn booking overlaps and starting at or after now (after now at midnight), choose exactly that stretch, with the day's computed past window |
| BookingConstants.StatusValues | frontend/src/constants/booking.js:6-10 | the three statuses are distinct and equal the backend's status strings |
| BookingConstants.TimelineCoversDay | frontend/src/constants/booking.js:37-41 | 48 cells of 30 minutes cover 1440 minutes |
| BookingConstants.GetStatusText | frontend/src/constants/booking.js:27-29 | the fixed label of each known status; any other status unchanged |
| BookingConstants.GetStatusType | frontend/src/constants/booking.js:32-34 | info, success, danger for the known statuses; info for anything else |
| BookingConstants.LabelsDistinguishStatuses | frontend/src/constants/booking.js:13-29 | distinct statuses that are not themselves labels get distinct texts |

## Left out

- Database I/O, sessions, commits and `db.refresh` are left out. The store is a sequence per table.
- The row-id policy of the database engine is left out. A new id is one more than every id in its table.
- Query order is left out. `.first()` and `offset/limit` without ORDER BY run over the rows in insertion order.
- Negative `skip` and `limit` are left out. `Table.Page` takes them as natural numbers, because their meaning depends on the engine.
- The clock (`get_current_time`, `datetime.now`, `Date.now`, `new Date()`) is a parameter (`now`, `clock`).
- Password hashing and `verify_password` are left out, because they call passlib/bcrypt. The hash is a `string -> string` parameter.
- The race between the conflict query and the commit is left out. The model is a sequential store.
- BookingRouter.CreateBooking: requires naive endpoints. Comparing an aware request with the server's naive `datetime.now()` raises a TypeError, a failure the model does not represent.
- `get_user_bookings` and `get_room_bookings` are left out. They are plain filters that no modelled property uses.
- Pydantic's request validation (`EmailStr`, types, missing fields) is left out. The request types carry only the field shapes.
- Inherited JavaScript prototype keys in the status maps are left out. The maps hold only their three entries.
- TimeUtils.DayEnd: is the day's last minute, not 23:59:59.999. Front-end times are whole minutes.
- TimeUtils.GetTimeDuration: takes whole-minute differences. Fractional minutes from sub-minute `Date` values are not modelled.
- Time zones and daylight-saving changes of the browser's local clock are left out. A day is always 1440 minutes.
- The float layout helpers are left out: `getTimeFromPosition`, `getTimePosition`, `getSlotStyle` and `getMarkerStyle`. So are locale formatting (`formatTime`, `formatDateTime`, `formatBookingTime`, `disabledDate`), `ElMessage` toasts and DOM measurement. The click and move handlers take the minute they point at.
- The seed and init scripts, the app and router wiring, and the HTTP client are left out.
