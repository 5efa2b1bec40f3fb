/** BookingRepository: the queries over the Bookings table, the availability
    test the booking engine relies on, and the three writes. */
module BookingRepository {
  import opened Common
  import opened Entities
  import opened Data

  /** The three-clause test of IsRoomAvailableAsync: booking `b` collides with
      a requested stay `[checkIn, checkOut)`. */
  predicate Collides(b: Booking, checkIn: Day, checkOut: Day) {
    || (b.checkIn <= checkIn && b.checkOut > checkIn)
    || (b.checkIn < checkOut && b.checkOut >= checkOut)
    || (b.checkIn >= checkIn && b.checkOut <= checkOut)
  }

  /** The canonical test: the half-open stays `[a1, a2)` and `[b1, b2)` share a night. */
  predicate HalfOpenOverlap(a1: Day, a2: Day, b1: Day, b2: Day) {
    a1 < b2 && b1 < a2
  }

  /** A booking row the availability query counts against the request. */
  predicate Blocks(b: Booking, roomId: int, checkIn: Day, checkOut: Day, excludeBookingId: Option<int>) {
    && b.roomId == roomId
    && b.status != Cancelled
    && Collides(b, checkIn, checkOut)
    && (excludeBookingId.Some? ==> b.id != excludeBookingId.value)
  }

  /** IsRoomAvailableAsync: no row of the query exists. */
  predicate IsRoomAvailable(bookings: map<int, Booking>, roomId: int, checkIn: Day, checkOut: Day,
                            excludeBookingId: Option<int>)
  {
    !exists id :: id in bookings && Blocks(bookings[id], roomId, checkIn, checkOut, excludeBookingId)
  }

  /** Whenever the half-open stays share a night, the three-clause test fires,
      whatever the shape of either interval. */
  lemma HalfOpenImpliesCollides(b: Booking, checkIn: Day, checkOut: Day)
    requires HalfOpenOverlap(b.checkIn, b.checkOut, checkIn, checkOut)
    ensures Collides(b, checkIn, checkOut)
  {
  }

  /** For well-formed stays the three clauses are exactly the half-open test. */
  lemma CollidesIffHalfOpen(b: Booking, checkIn: Day, checkOut: Day)
    requires b.checkIn < b.checkOut && checkIn < checkOut
    ensures Collides(b, checkIn, checkOut) <==> HalfOpenOverlap(b.checkIn, b.checkOut, checkIn, checkOut)
  {
  }

  /** A degenerate stored stay that ends where the request ends still collides:
      the third clause is what makes the two tests differ. */
  lemma EmptyStayAtRequestEndCollides(b: Booking, checkIn: Day, checkOut: Day)
    requires checkIn < checkOut && b.checkIn == b.checkOut == checkOut
    ensures Collides(b, checkIn, checkOut)
    ensures !HalfOpenOverlap(b.checkIn, b.checkOut, checkIn, checkOut)
  {
  }

  /** Back-to-back stays do not conflict: a well-formed booking that checks out
      on the requested check-in day, or checks in on the requested check-out
      day, never blocks. */
  lemma BackToBackNeverBlocks(b: Booking, checkIn: Day, checkOut: Day)
    requires b.checkIn < b.checkOut && checkIn < checkOut
    requires b.checkOut == checkIn || b.checkIn == checkOut
    ensures !Collides(b, checkIn, checkOut)
  {
  }

  /** Adding a booking that is cancelled, belongs to another room, or is the
      excluded booking never changes the answer of IsRoomAvailable. */
  lemma NonBlockingRowIsIgnored(bookings: map<int, Booking>, k: int, b: Booking, roomId: int,
                                checkIn: Day, checkOut: Day, excludeBookingId: Option<int>)
    requires k !in bookings
    requires b.status == Cancelled || b.roomId != roomId
             || (excludeBookingId.Some? && b.id == excludeBookingId.value)
    ensures IsRoomAvailable(bookings[k := b], roomId, checkIn, checkOut, excludeBookingId)
            == IsRoomAvailable(bookings, roomId, checkIn, checkOut, excludeBookingId)
  {
    var after := bookings[k := b];
    forall id | id in after && Blocks(after[id], roomId, checkIn, checkOut, excludeBookingId)
      ensures id in bookings && Blocks(bookings[id], roomId, checkIn, checkOut, excludeBookingId)
    {
      assert id != k;
    }
    forall id | id in bookings && Blocks(bookings[id], roomId, checkIn, checkOut, excludeBookingId)
      ensures id in after && Blocks(after[id], roomId, checkIn, checkOut, excludeBookingId)
    {
      assert after[id] == bookings[id];
    }
  }

  /** GetByIdAsync. */
  function GetById(bookings: map<int, Booking>, id: int): (r: Option<Booking>)
    ensures r.Some? <==> id in bookings
    ensures r.Some? ==> r.value == bookings[id]
  {
    if id in bookings then Some(bookings[id]) else None
  }

  /** GetByRoomIdAsync: every booking of one room, keyed by id. */
  function GetByRoomId(bookings: map<int, Booking>, roomId: int): (r: map<int, Booking>)
    ensures forall id :: id in r <==> id in bookings && bookings[id].roomId == roomId
    ensures forall id :: id in r ==> r[id] == bookings[id]
  {
    map id | id in bookings && bookings[id].roomId == roomId :: bookings[id]
  }

  /** GetByGuestEmailAsync: every booking made under one email, keyed by id. */
  function GetByGuestEmail(bookings: map<int, Booking>, email: string): (r: map<int, Booking>)
    ensures forall id :: id in r <==> id in bookings && bookings[id].guestEmail == email
    ensures forall id :: id in r ==> r[id] == bookings[id]
  {
    map id | id in bookings && bookings[id].guestEmail == email :: bookings[id]
  }

  /** CreateAsync: stamps CreatedAt, inserts the row; the database assigns the id. */
  method Create(db: Database, booking: Booking, now: Instant) returns (created: Booking)
    requires db.Valid()
    modifies db`bookings, db`nextBookingId
    ensures db.Valid()
    ensures created == booking.(id := old(db.nextBookingId), createdAt := now)
    ensures created.id > 0 && created.id !in old(db.bookings)
    ensures db.bookings == old(db.bookings)[created.id := created]
  {
    created := booking.(id := db.nextBookingId, createdAt := now);
    db.bookings := db.bookings[created.id := created];
    db.nextBookingId := db.nextBookingId + 1;
  }

  /** UpdateAsync: stamps UpdatedAt and replaces the stored row of the same id. */
  method Update(db: Database, booking: Booking, now: Instant) returns (updated: Booking)
    requires db.Valid() && booking.id in db.bookings
    modifies db`bookings
    ensures db.Valid()
    ensures updated == booking.(updatedAt := Some(now))
    ensures db.bookings == old(db.bookings)[booking.id := updated]
  {
    updated := booking.(updatedAt := Some(now));
    db.bookings := db.bookings[booking.id := updated];
  }

  /** DeleteAsync: false and no change for an absent id; otherwise removes
      exactly that row. */
  method Delete(db: Database, id: int) returns (deleted: bool)
    requires db.Valid()
    modifies db`bookings
    ensures db.Valid()
    ensures deleted <==> id in old(db.bookings)
    ensures db.bookings == old(db.bookings) - {id}
    ensures !deleted ==> db.bookings == old(db.bookings)
  {
    if id !in db.bookings {
      return false;
    }
    db.bookings := db.bookings - {id};
    return true;
  }
}
