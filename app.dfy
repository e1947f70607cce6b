/**
 * The state-changing handlers of the application over an in-memory store of the three tables:
 * the expired-slot sweep and the admin login that triggers it, registration, booking and
 * cancelling, toggling and deleting a slot, and the confirm phase of the bulk slot generator.
 *
 * A database commit is the end of a method; an exception that aborts a request before its commit
 * (an integrity error, an OverflowError) leaves the store as it was. Calls to the external calendar
 * are parameters: the event id that the create call returned (None when it failed), and the
 * outcome of the delete call.
 */
module App {
  import opened Wrappers
  import opened Calendar
  import opened Models
  import opened BulkSlots

  /** What a handler reports, in place of the page, redirect or JSON it renders. */
  datatype Response =
    | Done
    | Denied                 // the caller is not an admin: a 403 answer
    | NotFound               // get_or_404 on a missing key
    | Refused                // book_slot: the slot has a booking or is switched off
    | IntegrityError         // a NOT NULL or UNIQUE constraint fails at commit: nothing is written
    | MissingFields          // register: username or password left empty
    | UsernameTaken          // register: another user has this username
    | InvalidCredentials     // login: no such username, or a wrong password
    | LoggedIn(role: Role)
    | Updated(available: bool)

  /** The outcome of the calendar's delete call. */
  datatype RemoteOutcome = Removed | RemoteError

  /** `created_count` and `skipped_count` of confirm_bulk_slots. */
  datatype Counts = Counts(created: nat, skipped: nat)

  predicate KeysBelow<V>(m: map<int, V>, next: int)
  {
    forall id :: id in m ==> id < next
  }

  function PeriodOf(s: Slot): Period
  {
    Period(s.date, s.startTime, s.endTime)
  }

  /** The (date, start, end) triples present in the slot table. */
  function Periods(slots: map<int, Slot>): set<Period>
  {
    set id | id in slots :: PeriodOf(slots[id])
  }

  /** No two slots share (date, start, end): the generator's duplicate check keeps this. */
  ghost predicate UniquePeriods(slots: map<int, Slot>)
  {
    forall i, j :: i in slots && j in slots && PeriodOf(slots[i]) == PeriodOf(slots[j]) ==> i == j
  }

  /** The slot confirm_bulk_slots adds for a candidate, with `available` set explicitly. */
  function NewSlot(p: Period): (s: Slot)
    ensures PeriodOf(s) == p && s.available
  {
    CreateSlot(p.date, p.start, p.end, Some(true))
  }

  /** The keys of the slots dated strictly before `today`: the sweep's query. */
  function Expired(slots: map<int, Slot>, today: int): set<int>
  {
    set id | id in slots && slots[id].date < today
  }

  /** The booking form's `description`, or the string "None" when the field is absent. */
  function DescriptionOrDefault(description: Option<string>): string
  {
    if description.Some? then description.value else "None"
  }

  predicate UsernameInUse(users: map<int, User>, username: string)
  {
    exists id :: id in users && users[id].username == username
  }

  predicate EmailInUse(users: map<int, User>, email: string)
  {
    exists id :: id in users && users[id].email == email
  }

  predicate Authenticates(users: map<int, User>, username: string, password: string, role: Role)
  {
    exists id :: id in users && users[id].username == username && users[id].password == password && users[id].role == role
  }

  // ---------------------------------------------------------------------------------------------
  // The confirm phase as a fold over the candidates

  /** The slot table, the next free key and the two counters while confirm runs. */
  datatype Batch = Batch(slots: map<int, Slot>, nextId: int, created: nat, skipped: nat)

  /** One candidate: skipped when an identical slot exists, otherwise added as available. */
  function AddCandidate(b: Batch, p: Period): Batch
  {
    if p in Periods(b.slots) then b.(skipped := b.skipped + 1)
    else Batch(b.slots[b.nextId := NewSlot(p)], b.nextId + 1, b.created + 1, b.skipped)
  }

  function AddAll(b: Batch, cs: seq<Period>): Batch
  {
    if cs == [] then b else AddCandidate(AddAll(b, cs[..|cs| - 1]), cs[|cs| - 1])
  }

  /** The number of entries of `cs` that are not in `present`. */
  function CountAbsent(cs: seq<Period>, present: set<Period>): nat
  {
    if cs == [] then 0
    else CountAbsent(cs[..|cs| - 1], present) + (if cs[|cs| - 1] in present then 0 else 1)
  }

  lemma PeriodsInsert(m: map<int, Slot>, id: int, s: Slot)
    requires id !in m
    ensures Periods(m[id := s]) == Periods(m) + {PeriodOf(s)}
  {
    var m' := m[id := s];
    forall p | p in Periods(m') ensures p in Periods(m) + {PeriodOf(s)} {
      var k :| k in m' && PeriodOf(m'[k]) == p;
      if k != id {
        assert k in m && PeriodOf(m[k]) == p;
      }
    }
    forall p | p in Periods(m) ensures p in Periods(m') {
      var k :| k in m && PeriodOf(m[k]) == p;
      assert k in m' && m'[k] == m[k];
    }
    assert id in m';
  }

  lemma {:induction false} AddAllAppend(b: Batch, xs: seq<Period>, ys: seq<Period>)
    ensures AddAll(b, xs + ys) == AddAll(AddAll(b, xs), ys)
  {
    if ys == [] {
      assert xs + ys == xs;
    } else {
      var init := ys[..|ys| - 1];
      AddAllAppend(b, xs, init);
      assert (xs + ys)[..|xs + ys| - 1] == xs + init;
    }
  }

  /**
   * Confirm keeps every existing slot unchanged, adds slots only under fresh keys, each one
   * available and for a candidate absent from the table before, leaves every candidate present,
   * and counts each candidate once, as created or as skipped.
   */
  lemma AddAllEffect(b: Batch, cs: seq<Period>)
    requires KeysBelow(b.slots, b.nextId)
    ensures KeysBelow(AddAll(b, cs).slots, AddAll(b, cs).nextId)
    ensures AddAll(b, cs).nextId == b.nextId + (AddAll(b, cs).created - b.created)
    ensures AddAll(b, cs).created + AddAll(b, cs).skipped == b.created + b.skipped + |cs|
    ensures b.created <= AddAll(b, cs).created
    ensures forall id :: id in b.slots ==> id in AddAll(b, cs).slots && AddAll(b, cs).slots[id] == b.slots[id]
    ensures forall id :: id in AddAll(b, cs).slots && id !in b.slots ==>
      && b.nextId <= id < AddAll(b, cs).nextId
      && AddAll(b, cs).slots[id].available
      && PeriodOf(AddAll(b, cs).slots[id]) in cs
      && PeriodOf(AddAll(b, cs).slots[id]) !in Periods(b.slots)
    ensures Periods(AddAll(b, cs).slots) == Periods(b.slots) + (set p | p in cs)
  {
    AddAllCounts(b, cs);
    AddAllPeriods(b, cs);
    AddAllNew(b, cs);
  }

  /** The key counter, the two counters, and the slots that were there before. */
  lemma {:induction false} AddAllCounts(b: Batch, cs: seq<Period>)
    requires KeysBelow(b.slots, b.nextId)
    ensures KeysBelow(AddAll(b, cs).slots, AddAll(b, cs).nextId)
    ensures AddAll(b, cs).nextId == b.nextId + (AddAll(b, cs).created - b.created)
    ensures AddAll(b, cs).created + AddAll(b, cs).skipped == b.created + b.skipped + |cs|
    ensures b.created <= AddAll(b, cs).created
    ensures forall id :: id in b.slots ==> id in AddAll(b, cs).slots && AddAll(b, cs).slots[id] == b.slots[id]
  {
    if cs != [] {
      var init, p := cs[..|cs| - 1], cs[|cs| - 1];
      AddAllCounts(b, init);
      AddCandidateEffect(AddAll(b, init), p);
    }
  }

  /** The triples present afterwards: those present before and every candidate. */
  lemma {:induction false} AddAllPeriods(b: Batch, cs: seq<Period>)
    requires KeysBelow(b.slots, b.nextId)
    ensures Periods(AddAll(b, cs).slots) == Periods(b.slots) + (set p | p in cs)
  {
    if cs != [] {
      var init, p := cs[..|cs| - 1], cs[|cs| - 1];
      AddAllPeriods(b, init);
      AddAllCounts(b, init);
      AddCandidateEffect(AddAll(b, init), p);
      assert cs == init + [p];
      assert (set q | q in cs) == (set q | q in init) + {p};
    }
  }

  /** Every slot under a new key is an available slot for a candidate that was absent before. */
  lemma {:induction false} AddAllNew(b: Batch, cs: seq<Period>)
    requires KeysBelow(b.slots, b.nextId)
    ensures forall id :: id in AddAll(b, cs).slots && id !in b.slots ==>
      && b.nextId <= id < AddAll(b, cs).nextId
      && AddAll(b, cs).slots[id].available
      && PeriodOf(AddAll(b, cs).slots[id]) in cs
      && PeriodOf(AddAll(b, cs).slots[id]) !in Periods(b.slots)
  {
    if cs != [] {
      var init, p := cs[..|cs| - 1], cs[|cs| - 1];
      var mid, c := AddAll(b, init), AddAll(b, cs);
      AddAllNew(b, init);
      AddAllCounts(b, init);
      AddAllPeriods(b, init);
      assert c == AddCandidate(mid, p);
      AddCandidateEffect(mid, p);
      assert cs == init + [p];
      forall id | id in c.slots && id !in b.slots
        ensures b.nextId <= id < c.nextId && c.slots[id].available
        ensures PeriodOf(c.slots[id]) in cs && PeriodOf(c.slots[id]) !in Periods(b.slots)
      {
        if id !in mid.slots {
          assert c.slots[id] == NewSlot(p) && p !in Periods(mid.slots);
        } else {
          assert c.slots[id] == mid.slots[id];
        }
      }
    }
  }

  /** One candidate: existing slots kept, at most one new available slot for it under the next key. */
  lemma AddCandidateEffect(b: Batch, p: Period)
    requires KeysBelow(b.slots, b.nextId)
    ensures KeysBelow(AddCandidate(b, p).slots, AddCandidate(b, p).nextId)
    ensures AddCandidate(b, p).nextId == b.nextId + (AddCandidate(b, p).created - b.created)
    ensures AddCandidate(b, p).created + AddCandidate(b, p).skipped == b.created + b.skipped + 1
    ensures b.created <= AddCandidate(b, p).created
    ensures forall id :: id in b.slots ==> id in AddCandidate(b, p).slots && AddCandidate(b, p).slots[id] == b.slots[id]
    ensures forall id :: id in AddCandidate(b, p).slots && id !in b.slots ==>
      && id == b.nextId && AddCandidate(b, p).slots[id] == NewSlot(p) && p !in Periods(b.slots)
    ensures Periods(AddCandidate(b, p).slots) == Periods(b.slots) + {p}
  {
    if p !in Periods(b.slots) {
      PeriodsInsert(b.slots, b.nextId, NewSlot(p));
    }
  }

  /** The slot loop of one date, from `cursor` on, as a fold of AddCandidate. */
  function DayFold(b: Batch, d: int, cursor: int, endTime: int, duration: int): Batch
    requires duration > 0
    decreases endTime - cursor
  {
    if cursor + duration <= endTime then
      DayFold(AddCandidate(b, Period(d, cursor, cursor + duration)), d, cursor + duration, endTime, duration)
    else
      b
  }

  /** The date loop from date `d` on, as a fold of the slot loop over the retained dates. */
  function DatesFold(b: Batch, r: Request, d: int): Batch
    requires r.duration > 0
    decreases r.endDate - d
  {
    if d > r.endDate then b
    else DatesFold(if Retained(d, r.excluded) then DayFold(b, d, r.startTime, r.endTime, r.duration) else b, r, d + 1)
  }

  /** The slot loop of one date folds exactly the candidates of that date, in order. */
  lemma {:induction false} DayFoldIsAddAll(b: Batch, d: int, cursor: int, endTime: int, duration: int)
    requires duration > 0
    ensures DayFold(b, d, cursor, endTime, duration) == AddAll(b, PeriodsOn(d, SpansFrom(cursor, endTime, duration)))
    decreases endTime - cursor
  {
    if cursor + duration <= endTime {
      var p := Period(d, cursor, cursor + duration);
      var rest := PeriodsOn(d, SpansFrom(cursor + duration, endTime, duration));
      DayFoldIsAddAll(AddCandidate(b, p), d, cursor + duration, endTime, duration);
      assert PeriodsOn(d, SpansFrom(cursor, endTime, duration)) == [p] + rest;
      AddAllAppend(b, [p], rest);
      assert AddAll(b, [p]) == AddCandidate(b, p) by {
        assert [p][..0] == [];
      }
    } else {
      assert PeriodsOn(d, SpansFrom(cursor, endTime, duration)) == [];
    }
  }

  /** One date of the loop extends the fold of the dates before it by that date's slot loop. */
  lemma DatesFoldStep(b0: Batch, r: Request, d: int)
    requires r.duration > 0 && r.startDate <= d
    ensures var done := AddAll(b0, Flatten(PlansFor(r, DatesThrough(r, d - 1))));
      AddAll(b0, Flatten(PlansFor(r, DatesThrough(r, d)))) ==
        if Retained(d, r.excluded) then DayFold(done, d, r.startTime, r.endTime, r.duration) else done
  {
    var done := Flatten(PlansFor(r, DatesThrough(r, d - 1)));
    FlattenThroughStep(r, d);
    if Retained(d, r.excluded) {
      DayFoldIsAddAll(AddAll(b0, done), d, r.startTime, r.endTime, r.duration);
      AddAllAppend(b0, done, PeriodsOn(d, DaySpans(r)));
    } else {
      assert done + [] == done;
    }
  }

  /** The date loop's fold at date `d` is its fold from the next date on what date `d` leaves. */
  lemma DatesFoldUnfold(before: Batch, after: Batch, r: Request, d: int)
    requires r.duration > 0 && d <= r.endDate
    requires after == if Retained(d, r.excluded) then DayFold(before, d, r.startTime, r.endTime, r.duration) else before
    ensures DatesFold(before, r, d) == DatesFold(after, r, d + 1)
  {
  }

  /** From any date the date loop reaches, it completes the fold of all the request's candidates. */
  lemma {:induction false} DatesFoldFrom(b0: Batch, r: Request, d: int)
    requires r.duration > 0 && r.startDate <= d && (d <= r.endDate + 1 || d == r.startDate)
    ensures DatesFold(AddAll(b0, Flatten(PlansFor(r, DatesThrough(r, d - 1)))), r, d) == AddAll(b0, Candidates(r))
    decreases r.endDate - d
  {
    if d > r.endDate {
      assert DatesThrough(r, d - 1) == CandidateDates(r);
    } else {
      DatesFoldStep(b0, r, d);
      DatesFoldFrom(b0, r, d + 1);
    }
  }

  /** The date loop from the first date is the fold of all candidates. */
  lemma DatesFoldIsAddAll(b0: Batch, r: Request)
    requires r.duration > 0
    ensures DatesFold(b0, r, r.startDate) == AddAll(b0, Candidates(r))
  {
    DatesFoldFrom(b0, r, r.startDate);
  }

  /** Confirm never creates a second slot with the same (date, start, end). */
  lemma {:induction false} AddAllKeepsUnique(b: Batch, cs: seq<Period>)
    requires KeysBelow(b.slots, b.nextId) && UniquePeriods(b.slots)
    ensures UniquePeriods(AddAll(b, cs).slots)
  {
    if cs != [] {
      var init, p := cs[..|cs| - 1], cs[|cs| - 1];
      AddAllKeepsUnique(b, init);
      AddAllEffect(b, init);
      var mid := AddAll(b, init);
      if p !in Periods(mid.slots) {
        var m' := mid.slots[mid.nextId := NewSlot(p)];
        assert forall k :: k in mid.slots ==> PeriodOf(mid.slots[k]) in Periods(mid.slots);
        assert forall i, j :: i in m' && j in m' && PeriodOf(m'[i]) == PeriodOf(m'[j]) ==> i == j;
      }
    }
  }

  /** For distinct candidates, `created_count` is the number of candidates absent beforehand. */
  lemma {:induction false} AddAllCreatedCount(b: Batch, cs: seq<Period>)
    requires KeysBelow(b.slots, b.nextId)
    requires forall i, j :: 0 <= i < j < |cs| ==> cs[i] != cs[j]
    ensures AddAll(b, cs).created == b.created + CountAbsent(cs, Periods(b.slots))
  {
    if cs != [] {
      var init, p := cs[..|cs| - 1], cs[|cs| - 1];
      AddAllCreatedCount(b, init);
      AddAllEffect(b, init);
      forall i | 0 <= i < |init| ensures init[i] != p {
        assert init[i] == cs[i];
      }
      assert p !in init;
      assert p in Periods(AddAll(b, init).slots) <==> p in Periods(b.slots);
    }
  }

  /** When every candidate is already present, confirm changes nothing and skips them all. */
  lemma {:induction false} AddAllWhenPresent(b: Batch, cs: seq<Period>)
    requires forall p :: p in cs ==> p in Periods(b.slots)
    ensures AddAll(b, cs) == b.(skipped := b.skipped + |cs|)
  {
    if cs != [] {
      var init := cs[..|cs| - 1];
      forall q | q in init ensures q in Periods(b.slots) {
        var i :| 0 <= i < |init| && init[i] == q;
        assert cs[i] == q;
      }
      AddAllWhenPresent(b, init);
    }
  }

  /** Confirming the same candidates a second time creates nothing and leaves the table as it is. */
  lemma ConfirmIdempotent(b: Batch, cs: seq<Period>)
    requires KeysBelow(b.slots, b.nextId)
    ensures var once := AddAll(b, cs);
      AddAll(Batch(once.slots, once.nextId, 0, 0), cs) == Batch(once.slots, once.nextId, 0, |cs|)
  {
    AddAllEffect(b, cs);
    var once := AddAll(b, cs);
    AddAllWhenPresent(Batch(once.slots, once.nextId, 0, 0), cs);
  }

  lemma {:induction false} CountAbsentBounds(cs: seq<Period>, present: set<Period>)
    ensures CountAbsent(cs, present) <= |cs|
    ensures CountAbsent(cs, present) == 0 <==> forall p :: p in cs ==> p in present
  {
    if cs != [] {
      var init := cs[..|cs| - 1];
      CountAbsentBounds(init, present);
      assert cs == init + [cs[|cs| - 1]];
    }
  }

  /** A non-empty set has a member to pick. */
  lemma SomeMember(s: set<int>)
    requires s != {}
    ensures exists x :: x in s
  {
    if forall x :: x !in s {
      assert false;
    }
  }

  // ---------------------------------------------------------------------------------------------
  // The store

  class Store {
    var users: map<int, User>
    var slots: map<int, Slot>
    var bookings: map<int, Booking>
    var nextUserId: int
    var nextSlotId: int
    var nextBookingId: int

    /** Fresh keys stay above the used ones; the unique columns and the booking rules hold. */
    ghost predicate Valid()
      reads this
    {
      && KeysBelow(users, nextUserId) && KeysBelow(slots, nextSlotId) && KeysBelow(bookings, nextBookingId)
      && UniqueUsernames(users) && UniqueEmails(users)
      && UniquePeriods(slots)
      && OneBookingPerSlot(bookings)
      && (forall b :: b in bookings ==> bookings[b].userId in users)
    }

    constructor ()
      ensures Valid()
      ensures users == map[] && slots == map[] && bookings == map[]
    {
      users, slots, bookings := map[], map[], map[];
      nextUserId, nextSlotId, nextBookingId := 1, 1, 1;
    }

    /**
     * delete_old_slots_job: delete every slot dated strictly before `today`, whatever its state,
     * and report how many went. Bookings are not touched.
     */
    method SweepExpired(today: int) returns (deleted: nat)
      requires Valid()
      modifies this`slots
      ensures Valid()
      ensures slots == old(slots) - Expired(old(slots), today)
      ensures forall id :: id in slots ==> slots[id].date >= today
      ensures forall id :: id in old(slots) && old(slots)[id].date >= today ==> id in slots && slots[id] == old(slots)[id]
      ensures deleted == |Expired(old(slots), today)|
    {
      var oldSlots := Expired(slots, today);
      DeleteEach(oldSlots);
      deleted := |oldSlots|;
    }

    /** The sweep's loop over the selected slots, deleting them one by one. */
    method DeleteEach(ids: set<int>)
      modifies this`slots
      ensures slots == old(slots) - ids
    {
      var pending := ids;
      while pending != {}
        invariant pending <= ids
        invariant slots == old(slots) - (ids - pending)
        decreases pending
      {
        SomeMember(pending);
        var id :| id in pending;
        slots := slots - {id};
        pending := pending - {id};
      }
    }

    /** Running the sweep twice on the same day: the second run deletes nothing. */
    method SweepTwice(today: int) returns (first: nat, second: nat)
      requires Valid()
      modifies this`slots
      ensures Valid()
      ensures slots == old(slots) - Expired(old(slots), today)
      ensures first == |Expired(old(slots), today)| && second == 0
    {
      first := SweepExpired(today);
      assert Expired(slots, today) == {};
      second := SweepExpired(today);
    }

    /** login: a matching username and password logs in; an admin login runs the sweep first. */
    method Login(username: string, password: string, today: int) returns (res: Response)
      requires Valid()
      modifies this`slots
      ensures Valid()
      ensures res == LoggedIn(Admin) <==> Authenticates(users, username, password, Admin)
      ensures res == LoggedIn(Teacher) <==> Authenticates(users, username, password, Teacher)
      ensures !res.LoggedIn? ==> res == InvalidCredentials
      ensures slots == if res == LoggedIn(Admin) then old(slots) - Expired(old(slots), today) else old(slots)
    {
      if id :| id in users && users[id].username == username {
        var user := users[id];
        if user.password == password {
          if user.role == Admin {
            var _ := SweepExpired(today);
            return LoggedIn(Admin);
          }
          return LoggedIn(Teacher);
        }
      }
      return InvalidCredentials;
    }

    /**
     * register: both username and password must be non-empty and the username unused; the new
     * user is a teacher. A missing email or name, or an email already in use, fails the commit.
     */
    method Register(username: string, password: string, email: Option<string>,
                    firstName: Option<string>, lastName: Option<string>) returns (res: Response)
      requires Valid()
      modifies this`users, this`nextUserId
      ensures Valid()
      ensures res == if username == "" || password == "" then MissingFields
        else if UsernameInUse(old(users), username) then UsernameTaken
        else if email.None? || firstName.None? || lastName.None? || EmailInUse(old(users), email.value) then IntegrityError
        else Done
      ensures res == Done ==>
        && users == old(users)[old(nextUserId) := User(firstName.value, lastName.value, email.value, username, password, Teacher)]
        && old(nextUserId) !in old(users)
        && nextUserId == old(nextUserId) + 1
      ensures res != Done ==> users == old(users) && nextUserId == old(nextUserId)
    {
      if username == "" || password == "" {
        return MissingFields;
      }
      if UsernameInUse(users, username) {
        return UsernameTaken;
      }
      if email.None? || firstName.None? || lastName.None? || EmailInUse(users, email.value) {
        return IntegrityError;
      }
      var user := User(firstName.value, lastName.value, email.value, username, password, Teacher);
      users := users[nextUserId := user];
      nextUserId := nextUserId + 1;
      return Done;
    }

    /**
     * book_slot: only a slot with no booking and `available` set can be booked. The booking
     * carries the event id the calendar returned; when it returned None the commit fails on the
     * NOT NULL event_id column and nothing is stored.
     */
    method BookSlot(userId: int, slotId: int, description: Option<string>, calendarEvent: Option<string>)
      returns (res: Response)
      requires Valid() && userId in users
      modifies this`bookings, this`nextBookingId
      ensures Valid()
      ensures res == if slotId !in slots then NotFound
        else if IsBooked(old(bookings), slotId) || !slots[slotId].available then Refused
        else if calendarEvent.None? then IntegrityError
        else Done
      ensures res == Done ==>
        && bookings == old(bookings)[old(nextBookingId) := Booking(userId, slotId, DescriptionOrDefault(description), calendarEvent.value)]
        && old(nextBookingId) !in old(bookings)
        && nextBookingId == old(nextBookingId) + 1
        && BookingsOf(bookings, slotId) == {old(nextBookingId)}
      ensures res != Done ==> bookings == old(bookings) && nextBookingId == old(nextBookingId)
    {
      if slotId !in slots {
        return NotFound;
      }
      var existing := exists b :: b in bookings && bookings[b].slotId == slotId;
      IsBookedIff(bookings, slotId);
      if existing || !slots[slotId].available {
        return Refused;
      }
      if calendarEvent.None? {
        return IntegrityError;
      }
      var id := nextBookingId;
      var text := DescriptionOrDefault(description);
      bookings := bookings[id := Booking(userId, slotId, text, calendarEvent.value)];
      nextBookingId := nextBookingId + 1;
      assert BookingsOf(bookings, slotId) == {id};
      return Done;
    }

    /**
     * delete_booking: the booking is removed whatever the calendar's delete call did, since its
     * failure is caught before the local delete. There is no ownership or role check.
     */
    method DeleteBooking(bookingId: int, calendarRemoval: RemoteOutcome) returns (res: Response)
      requires Valid()
      modifies this`bookings
      ensures Valid()
      ensures res == if bookingId in old(bookings) then Done else NotFound
      ensures bookings == old(bookings) - {bookingId}
    {
      if bookingId !in bookings {
        return NotFound;
      }
      bookings := bookings - {bookingId};
      return Done;
    }

    /** set_slot_availability: an admin sets `available` to (form field == "true"), nothing else. */
    method SetSlotAvailability(actor: Role, slotId: int, availableField: Option<string>) returns (res: Response)
      requires Valid()
      modifies this`slots
      ensures Valid()
      ensures res == if actor != Admin then Denied
        else if slotId !in old(slots) then NotFound
        else Updated(availableField == Some("true"))
      ensures slots == if res.Updated? then old(slots)[slotId := old(slots)[slotId].(available := res.available)] else old(slots)
    {
      if actor != Admin {
        return Denied;
      }
      if slotId !in slots {
        return NotFound;
      }
      var newStatus := availableField == Some("true");
      slots := slots[slotId := slots[slotId].(available := newStatus)];
      return Updated(newStatus);
    }

    /** delete_slot: an admin deletes one slot; its bookings are not touched. */
    method DeleteSlot(actor: Role, slotId: int) returns (res: Response)
      requires Valid()
      modifies this`slots
      ensures Valid()
      ensures res == if actor != Admin then Denied else if slotId in old(slots) then Done else NotFound
      ensures slots == if res == Done then old(slots) - {slotId} else old(slots)
    {
      if actor != Admin {
        return Denied;
      }
      if slotId !in slots {
        return NotFound;
      }
      slots := slots - {slotId};
      return Done;
    }

    /**
     * The slot loop of confirm_bulk_slots for one retained date: the counters arrive as
     * `created0` and `skipped0` and leave updated. `overflow` is the OverflowError of the loop test.
     */
    method ConfirmDay(r: Request, d: int, created0: nat, skipped0: nat)
      returns (created: nat, skipped: nat, overflow: bool)
      requires Parsed(r) && r.duration > 0 && IsDate(d)
      requires KeysBelow(slots, nextSlotId)
      modifies this`slots, this`nextSlotId
      ensures overflow == DayOverflows(r, d)
      ensures KeysBelow(slots, nextSlotId)
      ensures !overflow ==>
        Batch(slots, nextSlotId, created, skipped) ==
          DayFold(Batch(old(slots), old(nextSlotId), created0, skipped0), d, r.startTime, r.endTime, r.duration)
    {
      created, skipped := created0, skipped0;
      ghost var goal := DayFold(Batch(slots, nextSlotId, created0, skipped0), d, r.startTime, r.endTime, r.duration);
      var cursor := r.startTime;
      while true
        invariant r.startTime <= cursor
        invariant cursor == r.startTime || cursor <= r.endTime
        invariant FinalCursor(cursor, r.endTime, r.duration) == FinalCursor(r.startTime, r.endTime, r.duration)
        invariant DayFold(Batch(slots, nextSlotId, created, skipped), d, cursor, r.endTime, r.duration) == goal
        invariant KeysBelow(slots, nextSlotId)
        decreases r.endTime - cursor
      {
        if AddOverflows(d, cursor, r.duration) {
          return created, skipped, true;
        }
        if !(cursor + r.duration <= r.endTime) {
          break;
        }
        var p := Period(d, cursor, cursor + r.duration);
        if p in Periods(slots) {
          skipped := skipped + 1;
        } else {
          slots := slots[nextSlotId := NewSlot(p)];
          nextSlotId := nextSlotId + 1;
          created := created + 1;
        }
        cursor := cursor + r.duration;
      }
      return created, skipped, false;
    }

    /** One step of the date loop: the slot loop when date `d` is retained, nothing otherwise. */
    method ConfirmDate(r: Request, d: int, created0: nat, skipped0: nat)
      returns (created: nat, skipped: nat, overflow: bool)
      requires Parsed(r) && r.duration > 0 && IsDate(d) && r.startDate <= d <= r.endDate
      requires KeysBelow(slots, nextSlotId)
      requires NoOverflowBefore(r, d)
      modifies this`slots, this`nextSlotId
      ensures overflow ==> SlotOverflow(r)
      ensures !overflow ==> NoOverflowBefore(r, d + 1)
      ensures KeysBelow(slots, nextSlotId)
      ensures !overflow ==>
        DatesFold(Batch(old(slots), old(nextSlotId), created0, skipped0), r, d) ==
          DatesFold(Batch(slots, nextSlotId, created, skipped), r, d + 1)
    {
      ghost var before := Batch(slots, nextSlotId, created0, skipped0);
      created, skipped, overflow := created0, skipped0, false;
      if Retained(d, r.excluded) {
        created, skipped, overflow := ConfirmDay(r, d, created0, skipped0);
        if overflow {
          OverflowOnDate(r, d);
        }
      }
      if !overflow {
        DatesFoldUnfold(before, Batch(slots, nextSlotId, created, skipped), r, d);
      }
    }

    /**
     * The date loop of confirm_bulk_slots: every date from start to end, the slot loop on the
     * retained ones. `overflow` is an OverflowError, of a slot's end or of the date step past the
     * last representable date; the slots added until then are then still pending.
     */
    method ConfirmDates(r: Request) returns (created: nat, skipped: nat, overflow: bool)
      requires Parsed(r) && r.duration > 0
      requires KeysBelow(slots, nextSlotId)
      modifies this`slots, this`nextSlotId
      ensures overflow == (DateLoopOverflows(r) || SlotOverflow(r))
      ensures !overflow ==>
        Batch(slots, nextSlotId, created, skipped) ==
          AddAll(Batch(old(slots), old(nextSlotId), 0, 0), Candidates(r))
    {
      ghost var goal := DatesFold(Batch(slots, nextSlotId, 0, 0), r, r.startDate);
      DatesFoldIsAddAll(Batch(slots, nextSlotId, 0, 0), r);
      created, skipped := 0, 0;
      var current := r.startDate;
      while current <= r.endDate
        invariant r.startDate <= current <= MaxOrdinal
        invariant current <= r.endDate + 1 || current == r.startDate
        invariant NoOverflowBefore(r, current)
        invariant DatesFold(Batch(slots, nextSlotId, created, skipped), r, current) == goal
        invariant KeysBelow(slots, nextSlotId)
      {
        var dayOverflow;
        created, skipped, dayOverflow := ConfirmDate(r, current, created, skipped);
        if dayOverflow {
          return created, skipped, true;
        }
        if current == MaxOrdinal {
          return created, skipped, true;
        }
        current := current + 1;
      }
      NoOverflowOnDates(r);
      return created, skipped, false;
    }

    /**
     * confirm_bulk_slots: the admin check and (a check the handler lacks) the rejection of a
     * non-positive duration, then the same candidates as the preview, each added as an available
     * slot unless an identical slot exists. On an OverflowError nothing is committed.
     */
    method ConfirmBulk(actor: Role, r: Request) returns (res: Result<Counts, GenError>)
      requires Valid() && Parsed(r)
      modifies this`slots, this`nextSlotId
      ensures Valid()
      ensures res.Failure? ==> slots == old(slots) && nextSlotId == old(nextSlotId)
      ensures actor != Admin ==> res == Failure(NotAdmin)
      ensures actor == Admin && Preview(r).Failure? ==> res == Failure(Preview(r).error)
      ensures actor == Admin && Preview(r).Success? ==>
        && res.Success?
        && Batch(slots, nextSlotId, res.value.created, res.value.skipped) ==
             AddAll(Batch(old(slots), old(nextSlotId), 0, 0), Candidates(r))
        && res.value.created == CountAbsent(Candidates(r), Periods(old(slots)))
        && res.value.created + res.value.skipped == TotalSlots(Preview(r).value)
        && (forall p :: p in Candidates(r) ==> p in Periods(slots))
        && (forall id :: id in old(slots) ==> id in slots && slots[id] == old(slots)[id])
        && (forall id :: id in slots && id !in old(slots) ==> slots[id].available)
    {
      if actor != Admin {
        return Failure(NotAdmin);
      }
      if r.duration <= 0 {
        return Failure(InvalidDuration);
      }
      var savedSlots, savedNext := slots, nextSlotId;
      var created, skipped, overflow := ConfirmDates(r);
      if overflow {
        slots, nextSlotId := savedSlots, savedNext;
        return Failure(Overflow);
      }
      ghost var b0 := Batch(savedSlots, savedNext, 0, 0);
      AddAllEffect(b0, Candidates(r));
      AddAllKeepsUnique(b0, Candidates(r));
      CandidatesAscending(r);
      AddAllCreatedCount(b0, Candidates(r));
      PreviewCounts(r);
      FlattenLength(PlansFor(r, CandidateDates(r)));
      return Success(Counts(created, skipped));
    }
  }
}
