/**
 * The three tables of the application (user, slot, booking) as records, with the column
 * constraints that the store keeps: unique usernames and emails, the default of `available`,
 * and the `is_booked` property of a slot.
 *
 * Every table is a map from primary key to record. A nullable=False string column is a plain
 * `string`; in particular a booking always carries an event id.
 */
module Models {
  import opened Wrappers

  /** The `role` column; the application writes only "teacher" and "admin" into it. */
  datatype Role = Teacher | Admin

  datatype User = User(
    firstName: string,
    lastName: string,
    email: string,
    username: string,
    password: string,
    role: Role)

  /** A slot: its date (an ordinal), start and end (minutes since midnight) and the `available` flag. */
  datatype Slot = Slot(date: int, startTime: int, endTime: int, available: bool)

  /** A booking links one user and one slot, by key, and names the mirrored calendar event. */
  datatype Booking = Booking(userId: int, slotId: int, description: string, eventId: string)

  /** A new slot row: `available` takes its column default, True, unless a value is given. */
  function CreateSlot(date: int, startTime: int, endTime: int, available: Option<bool>): (s: Slot)
    ensures s.date == date && s.startTime == startTime && s.endTime == endTime
    ensures s.available <==> available != Some(false)
  {
    Slot(date, startTime, endTime, if available.Some? then available.value else true)
  }

  /** The keys of the bookings whose `slot_id` is `slotId`: the `Slot.bookings` backref. */
  function BookingsOf(bookings: map<int, Booking>, slotId: int): set<int>
  {
    set b | b in bookings && bookings[b].slotId == slotId
  }

  /** `Slot.is_booked`: the slot has at least one booking. */
  predicate IsBooked(bookings: map<int, Booking>, slotId: int)
  {
    |BookingsOf(bookings, slotId)| > 0
  }

  /** A slot is booked exactly when some booking references it. */
  lemma IsBookedIff(bookings: map<int, Booking>, slotId: int)
    ensures IsBooked(bookings, slotId) <==> exists b :: b in bookings && bookings[b].slotId == slotId
  {
    var s := BookingsOf(bookings, slotId);
    if b :| b in bookings && bookings[b].slotId == slotId {
      assert b in s;
      assert |s| == |s - {b}| + 1;
    } else {
      assert forall c :: c !in s;
      assert s == {};
    }
  }

  /** The `username` column is unique. */
  ghost predicate UniqueUsernames(users: map<int, User>)
  {
    forall i, j :: i in users && j in users && users[i].username == users[j].username ==> i == j
  }

  /** The `email` column is unique. */
  ghost predicate UniqueEmails(users: map<int, User>)
  {
    forall i, j :: i in users && j in users && users[i].email == users[j].email ==> i == j
  }

  /** No two bookings reference the same slot (kept by the booking handler, not by the schema). */
  ghost predicate OneBookingPerSlot(bookings: map<int, Booking>)
  {
    forall a, b :: a in bookings && b in bookings && bookings[a].slotId == bookings[b].slotId ==> a == b
  }

  /** Under OneBookingPerSlot a booked slot has exactly one booking. */
  lemma {:induction false} BookedSlotHasOneBooking(bookings: map<int, Booking>, slotId: int)
    requires OneBookingPerSlot(bookings)
    requires IsBooked(bookings, slotId)
    ensures exists b :: b in bookings && BookingsOf(bookings, slotId) == {b}
  {
    IsBookedIff(bookings, slotId);
    var b :| b in bookings && bookings[b].slotId == slotId;
    forall c | c in BookingsOf(bookings, slotId) ensures c == b {
      assert bookings[c].slotId == bookings[b].slotId;
    }
    assert BookingsOf(bookings, slotId) == {b};
  }
}
