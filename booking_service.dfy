/** BookingService: the booking engine.  Creating a booking checks the room,
    the dates, availability and capacity in a fixed order and prices the stay;
    updating patches the supplied fields and re-checks availability only when
    the dates change; cancelling is a status change; deleting removes the row.

    Every failing check leaves the Bookings table exactly as it was.  The
    invariant the checks are there for, no two live bookings of one room
    sharing a night, is stated as `NoDoubleBooking` and proved preserved by
    every write. */
module BookingService {
  import opened Common
  import opened Entities
  import opened Data
  import BookingRepository
  import RoomRepository

  /** The .NET exception type a failure is reported as. */
  datatype ExceptionKind = ArgumentException | InvalidOperationException

  /** Why a create or update was refused, one case per `throw`. */
  datatype BookingError =
    | RoomNotFound                  // BookingService.cs:50
    | RoomNotAvailable              // BookingService.cs:53, the room's own flag is off
    | CheckOutNotAfterCheckIn       // BookingService.cs:56 and :109
    | CheckInInPast                 // BookingService.cs:59
    | DatesNotAvailable             // BookingService.cs:67 and :122
    | TooManyGuests(maxOccupancy: int)  // BookingService.cs:70
    | BookingCancelled              // BookingService.cs:90
    | BookedRoomMissing             // BookingService.cs:113

  function Kind(e: BookingError): ExceptionKind {
    match e
    case RoomNotFound => ArgumentException
    case RoomNotAvailable => InvalidOperationException
    case CheckOutNotAfterCheckIn => ArgumentException
    case CheckInInPast => ArgumentException
    case DatesNotAvailable => InvalidOperationException
    case TooManyGuests(_) => ArgumentException
    case BookingCancelled => InvalidOperationException
    case BookedRoomMissing => InvalidOperationException
  }

  datatype CreateBookingDto = CreateBookingDto(
    roomId: int,
    guestName: string,
    guestEmail: string,
    guestPhone: Option<string>,
    checkIn: Day,
    checkOut: Day,
    numberOfGuests: int)

  /** Every field optional: `None` is a null in the request. */
  datatype UpdateBookingDto = UpdateBookingDto(
    guestName: Option<string>,
    guestEmail: Option<string>,
    guestPhone: Option<string>,
    checkIn: Option<Day>,
    checkOut: Option<Day>,
    numberOfGuests: Option<int>,
    status: Option<string>)

  /** The price of a stay: the nightly rate times the whole nights. */
  function StayPrice(pricePerNight: Money, checkIn: Day, checkOut: Day): Money {
    pricePerNight * (checkOut - checkIn) as real
  }

  // ---------------------------------------------------------------------------
  // The invariant

  /** Two live bookings of the same room that share a night. */
  predicate Conflict(x: Booking, y: Booking) {
    && x.roomId == y.roomId
    && x.status != Cancelled && y.status != Cancelled
    && BookingRepository.HalfOpenOverlap(x.checkIn, x.checkOut, y.checkIn, y.checkOut)
  }

  /** No room is double-booked. */
  ghost predicate NoDoubleBooking(bookings: map<int, Booking>) {
    forall i, j :: i in bookings && j in bookings && i != j ==> !Conflict(bookings[i], bookings[j])
  }

  /** Every stay checks out after it checks in. */
  ghost predicate StaysWellFormed(bookings: map<int, Booking>) {
    forall i :: i in bookings ==> bookings[i].checkIn < bookings[i].checkOut
  }

  /** Writing row `k` keeps the table free of double bookings as long as the
      new row conflicts with no other row. */
  lemma {:induction false} StoreRowPreservesNoDoubleBooking(bookings: map<int, Booking>, k: int, b: Booking)
    requires NoDoubleBooking(bookings)
    requires forall j :: j in bookings && j != k ==> !Conflict(bookings[j], b)
    ensures NoDoubleBooking(bookings[k := b])
  {
    var after := bookings[k := b];
    forall i, j | i in after && j in after && i != j
      ensures !Conflict(after[i], after[j])
    {
      if i == k {
        assert !Conflict(bookings[j], b);
      } else if j == k {
        assert !Conflict(bookings[i], b);
      } else {
        assert after[i] == bookings[i] && after[j] == bookings[j];
      }
    }
  }

  /** What IsRoomAvailableAsync's answer guarantees: a stay it accepts shares
      no night with any live booking of the room except the excluded one. */
  lemma AvailableMeansNoConflict(bookings: map<int, Booking>, b: Booking, excludeBookingId: Option<int>)
    requires forall k :: k in bookings ==> bookings[k].id == k
    requires BookingRepository.IsRoomAvailable(bookings, b.roomId, b.checkIn, b.checkOut, excludeBookingId)
    ensures forall j :: j in bookings && (excludeBookingId.None? || j != excludeBookingId.value)
                        ==> !Conflict(bookings[j], b)
  {
    forall j | j in bookings && (excludeBookingId.None? || j != excludeBookingId.value)
      ensures !Conflict(bookings[j], b)
    {
      if Conflict(bookings[j], b) {
        BookingRepository.HalfOpenImpliesCollides(bookings[j], b.checkIn, b.checkOut);
        assert BookingRepository.Blocks(bookings[j], b.roomId, b.checkIn, b.checkOut, excludeBookingId);
      }
    }
  }

  // ---------------------------------------------------------------------------
  // Create

  /** The first check of CreateBookingAsync that fails, in the source's
      order, or `None` when the booking is accepted. */
  function CreateRejection(rooms: map<int, Room>, bookings: map<int, Booking>,
                           dto: CreateBookingDto, today: Day): (r: Option<BookingError>)
    ensures r.None? <==>
              && dto.roomId in rooms
              && rooms[dto.roomId].isAvailable
              && dto.checkIn < dto.checkOut
              && today <= dto.checkIn
              && BookingRepository.IsRoomAvailable(bookings, dto.roomId, dto.checkIn, dto.checkOut, None)
              && dto.numberOfGuests <= rooms[dto.roomId].maxOccupancy
    // each error is reported exactly when every earlier check passed and its own fails
    ensures r == Some(RoomNotFound) <==> dto.roomId !in rooms
    ensures r == Some(RoomNotAvailable) <==> dto.roomId in rooms && !rooms[dto.roomId].isAvailable
    ensures r == Some(CheckOutNotAfterCheckIn) <==>
              && dto.roomId in rooms && rooms[dto.roomId].isAvailable
              && dto.checkOut <= dto.checkIn
    ensures r == Some(CheckInInPast) <==>
              && dto.roomId in rooms && rooms[dto.roomId].isAvailable
              && dto.checkIn < dto.checkOut
              && dto.checkIn < today
    ensures r == Some(DatesNotAvailable) <==>
              && dto.roomId in rooms && rooms[dto.roomId].isAvailable
              && dto.checkIn < dto.checkOut
              && today <= dto.checkIn
              && !BookingRepository.IsRoomAvailable(bookings, dto.roomId, dto.checkIn, dto.checkOut, None)
    ensures (r.Some? && r.value.TooManyGuests?) <==>
              && dto.roomId in rooms && rooms[dto.roomId].isAvailable
              && dto.checkIn < dto.checkOut
              && today <= dto.checkIn
              && BookingRepository.IsRoomAvailable(bookings, dto.roomId, dto.checkIn, dto.checkOut, None)
              && rooms[dto.roomId].maxOccupancy < dto.numberOfGuests
    ensures r.Some? && r.value.TooManyGuests? ==>
              dto.roomId in rooms && r.value.maxOccupancy == rooms[dto.roomId].maxOccupancy
  {
    if dto.roomId !in rooms then Some(RoomNotFound)
    else
      var room := rooms[dto.roomId];
      if !room.isAvailable then Some(RoomNotAvailable)
      else if dto.checkIn >= dto.checkOut then Some(CheckOutNotAfterCheckIn)
      else if dto.checkIn < today then Some(CheckInInPast)
      else if !BookingRepository.IsRoomAvailable(bookings, dto.roomId, dto.checkIn, dto.checkOut, None)
      then Some(DatesNotAvailable)
      else if dto.numberOfGuests > room.maxOccupancy then Some(TooManyGuests(room.maxOccupancy))
      else None
  }

  /** An accepted request, stored under any fresh key, leaves the table free
      of double bookings and of inverted stays. */
  lemma AcceptedCreateKeepsInvariants(rooms: map<int, Room>, bookings: map<int, Booking>,
                                      dto: CreateBookingDto, today: Day, k: int, b: Booking)
    requires forall j :: j in bookings ==> bookings[j].id == j
    requires NoDoubleBooking(bookings) && StaysWellFormed(bookings)
    requires CreateRejection(rooms, bookings, dto, today).None?
    requires k !in bookings
    requires b.roomId == dto.roomId && b.checkIn == dto.checkIn && b.checkOut == dto.checkOut
    ensures NoDoubleBooking(bookings[k := b]) && StaysWellFormed(bookings[k := b])
  {
    AvailableMeansNoConflict(bookings, b, None);
    StoreRowPreservesNoDoubleBooking(bookings, k, b);
  }

  /** CreateBookingAsync. */
  method CreateBooking(db: Database, dto: CreateBookingDto, today: Day, now: Instant)
    returns (r: Result<Booking, BookingError>)
    requires db.Valid()
    modifies db`bookings, db`nextBookingId
    ensures db.Valid()
    ensures r.Failure? <==> CreateRejection(db.rooms, old(db.bookings), dto, today).Some?
    ensures r.Failure? ==> && r.error == CreateRejection(db.rooms, old(db.bookings), dto, today).value
                           && db.bookings == old(db.bookings)
    ensures r.Success? ==>
              && dto.roomId in db.rooms
              && r.value == Booking(r.value.id, dto.roomId, dto.guestName, dto.guestEmail, dto.guestPhone,
                                    dto.checkIn, dto.checkOut, dto.numberOfGuests,
                                    StayPrice(db.rooms[dto.roomId].pricePerNight, dto.checkIn, dto.checkOut),
                                    Confirmed, now, None)
              && r.value.id > 0 && r.value.id !in old(db.bookings)
              && db.bookings == old(db.bookings)[r.value.id := r.value]
    ensures NoDoubleBooking(old(db.bookings)) ==> NoDoubleBooking(db.bookings)
    ensures StaysWellFormed(old(db.bookings)) ==> StaysWellFormed(db.bookings)
  {
    var room := RoomRepository.GetById(db.rooms, dto.roomId);
    if room.None? {
      return Failure(RoomNotFound);
    }
    if !room.value.isAvailable {
      return Failure(RoomNotAvailable);
    }
    if dto.checkIn >= dto.checkOut {
      return Failure(CheckOutNotAfterCheckIn);
    }
    if dto.checkIn < today {
      return Failure(CheckInInPast);
    }
    var isAvailable := BookingRepository.IsRoomAvailable(db.bookings, dto.roomId, dto.checkIn, dto.checkOut, None);
    if !isAvailable {
      return Failure(DatesNotAvailable);
    }
    if dto.numberOfGuests > room.value.maxOccupancy {
      return Failure(TooManyGuests(room.value.maxOccupancy));
    }

    var totalPrice := StayPrice(room.value.pricePerNight, dto.checkIn, dto.checkOut);

    // the mapped entity starts with the entity's defaults
    var booking := Booking(0, dto.roomId, dto.guestName, dto.guestEmail, dto.guestPhone,
                           dto.checkIn, dto.checkOut, dto.numberOfGuests, 0.0, Pending, now, None);
    booking := booking.(totalPrice := totalPrice, status := Confirmed);

    ghost var before := db.bookings;
    var created := BookingRepository.Create(db, booking, now);
    if NoDoubleBooking(before) && StaysWellFormed(before) {
      AcceptedCreateKeepsInvariants(db.rooms, before, dto, today, created.id, created);
    }
    if NoDoubleBooking(before) {
      AvailableMeansNoConflict(before, created, None);
      StoreRowPreservesNoDoubleBooking(before, created.id, created);
    }
    return Success(created);
  }

  // ---------------------------------------------------------------------------
  // Update

  /** The field-by-field patch of UpdateBookingAsync: strings replace only when
      neither null nor empty, the guest count whenever supplied, the status
      with whatever string is given. */
  function PatchBooking(b: Booking, dto: UpdateBookingDto): (p: Booking)
    ensures p.id == b.id && p.roomId == b.roomId
    ensures p.checkIn == b.checkIn && p.checkOut == b.checkOut && p.totalPrice == b.totalPrice
    ensures p.createdAt == b.createdAt && p.updatedAt == b.updatedAt
    ensures IsNullOrEmpty(dto.guestName) ==> p.guestName == b.guestName
    ensures !IsNullOrEmpty(dto.guestName) ==> p.guestName == dto.guestName.value
    ensures IsNullOrEmpty(dto.guestEmail) ==> p.guestEmail == b.guestEmail
    ensures !IsNullOrEmpty(dto.guestEmail) ==> p.guestEmail == dto.guestEmail.value
    ensures IsNullOrEmpty(dto.guestPhone) ==> p.guestPhone == b.guestPhone
    ensures !IsNullOrEmpty(dto.guestPhone) ==> p.guestPhone == dto.guestPhone
    ensures p.numberOfGuests == if dto.numberOfGuests.Some? then dto.numberOfGuests.value else b.numberOfGuests
    ensures IsNullOrEmpty(dto.status) ==> p.status == b.status
    ensures !IsNullOrEmpty(dto.status) ==> StatusName(p.status) == dto.status.value
  {
    b.(guestName := PickString(dto.guestName, b.guestName),
       guestEmail := PickString(dto.guestEmail, b.guestEmail),
       guestPhone := PickNullableString(dto.guestPhone, b.guestPhone),
       numberOfGuests := PickValue(dto.numberOfGuests, b.numberOfGuests),
       status := if IsNullOrEmpty(dto.status) then b.status else ParseStatus(dto.status.value))
  }

  /** Applying the same patch twice is applying it once. */
  lemma PatchBookingIdempotent(b: Booking, dto: UpdateBookingDto)
    ensures PatchBooking(PatchBooking(b, dto), dto) == PatchBooking(b, dto)
  {
  }

  /** A request with every field null changes nothing. */
  lemma EmptyPatchIsIdentity(b: Booking)
    ensures PatchBooking(b, UpdateBookingDto(None, None, None, None, None, None, None)) == b
  {
  }

  /** The stay an update asks for: each supplied date replaces the stored one. */
  function RequestedStay(b: Booking, dto: UpdateBookingDto): (stay: (Day, Day))
    ensures dto.checkIn.Some? ==> stay.0 == dto.checkIn.value
    ensures dto.checkIn.None? ==> stay.0 == b.checkIn
    ensures dto.checkOut.Some? ==> stay.1 == dto.checkOut.value
    ensures dto.checkOut.None? ==> stay.1 == b.checkOut
  {
    (dto.checkIn.GetOr(b.checkIn), dto.checkOut.GetOr(b.checkOut))
  }

  /** What UpdateBookingAsync returns: `Success(None)` for an unknown id, the
      stored row on success, or the first check that failed. */
  function UpdateOutcome(rooms: map<int, Room>, bookings: map<int, Booking>, id: int,
                         dto: UpdateBookingDto, now: Instant): (r: Result<Option<Booking>, BookingError>)
    ensures r == Success(None) <==> id !in bookings
    ensures id in bookings && bookings[id].status == Cancelled ==> r == Failure(BookingCancelled)
    // with no new dates, a live booking is always updated, whatever the room's state
    ensures id in bookings && bookings[id].status != Cancelled && dto.checkIn.None? && dto.checkOut.None?
            ==> r == Success(Some(PatchBooking(bookings[id], dto).(updatedAt := Some(now))))
    // with new dates, only the order of the dates, the room's existence and
    // availability are checked: not the past, the capacity or the room's flag
    ensures id in bookings && bookings[id].status != Cancelled && (dto.checkIn.Some? || dto.checkOut.Some?)
            ==> var stay := RequestedStay(bookings[id], dto);
                var roomId := bookings[id].roomId;
                && (r.Success? <==>
                      && stay.0 < stay.1
                      && roomId in rooms
                      && BookingRepository.IsRoomAvailable(bookings, roomId, stay.0, stay.1, Some(bookings[id].id)))
                && (r.Success? ==>
                      r == Success(Some(PatchBooking(bookings[id], dto).(
                             checkIn := stay.0, checkOut := stay.1,
                             totalPrice := StayPrice(rooms[roomId].pricePerNight, stay.0, stay.1),
                             updatedAt := Some(now)))))
                && (stay.1 <= stay.0 ==> r == Failure(CheckOutNotAfterCheckIn))
                && (stay.0 < stay.1 && roomId !in rooms ==> r == Failure(BookedRoomMissing))
                && (stay.0 < stay.1 && roomId in rooms
                    && !BookingRepository.IsRoomAvailable(bookings, roomId, stay.0, stay.1, Some(bookings[id].id))
                    ==> r == Failure(DatesNotAvailable))
  {
    if id !in bookings then Success(None)
    else
      var b := bookings[id];
      if b.status == Cancelled then Failure(BookingCancelled)
      else
        var p := PatchBooking(b, dto);
        if dto.checkIn.None? && dto.checkOut.None? then Success(Some(p.(updatedAt := Some(now))))
        else
          var stay := RequestedStay(p, dto);
          if stay.0 >= stay.1 then Failure(CheckOutNotAfterCheckIn)
          else if p.roomId !in rooms then Failure(BookedRoomMissing)
          else if !BookingRepository.IsRoomAvailable(bookings, p.roomId, stay.0, stay.1, Some(p.id))
          then Failure(DatesNotAvailable)
          else
            Success(Some(p.(checkIn := stay.0, checkOut := stay.1,
                            totalPrice := StayPrice(rooms[p.roomId].pricePerNight, stay.0, stay.1),
                            updatedAt := Some(now))))
  }

  lemma UpdateWithDatesSucceeds(rooms: map<int, Room>, bookings: map<int, Booking>, id: int,
                                dto: UpdateBookingDto, now: Instant, checkIn: Day, checkOut: Day)
    requires id in bookings && bookings[id].status != Cancelled && (dto.checkIn.Some? || dto.checkOut.Some?)
    requires (checkIn, checkOut) == RequestedStay(bookings[id], dto) && checkIn < checkOut
    requires bookings[id].roomId in rooms
    requires BookingRepository.IsRoomAvailable(bookings, bookings[id].roomId, checkIn, checkOut, Some(bookings[id].id))
    ensures UpdateOutcome(rooms, bookings, id, dto, now)
            == Success(Some(PatchBooking(bookings[id], dto).(
                 checkIn := checkIn, checkOut := checkOut,
                 totalPrice := StayPrice(rooms[bookings[id].roomId].pricePerNight, checkIn, checkOut),
                 updatedAt := Some(now))))
  {
  }

  /** A successful update keeps the table free of double bookings and of
      inverted stays. */
  lemma UpdateKeepsInvariants(rooms: map<int, Room>, bookings: map<int, Booking>, id: int,
                              dto: UpdateBookingDto, now: Instant)
    requires forall k :: k in bookings ==> bookings[k].id == k
    requires NoDoubleBooking(bookings) && StaysWellFormed(bookings)
    requires UpdateOutcome(rooms, bookings, id, dto, now).Success?
    requires UpdateOutcome(rooms, bookings, id, dto, now).value.Some?
    ensures var b := UpdateOutcome(rooms, bookings, id, dto, now).value.value;
            NoDoubleBooking(bookings[id := b]) && StaysWellFormed(bookings[id := b])
  {
    var old_ := bookings[id];
    var b := UpdateOutcome(rooms, bookings, id, dto, now).value.value;
    if dto.checkIn.None? && dto.checkOut.None? {
      forall j | j in bookings && j != id
        ensures !Conflict(bookings[j], b)
      {
        assert !Conflict(bookings[j], old_);
      }
    } else {
      assert old_.id == id;
      AvailableMeansNoConflict(bookings, b, Some(id));
    }
    StoreRowPreservesNoDoubleBooking(bookings, id, b);
  }

  /** The field-by-field part of UpdateBookingAsync, before the dates. */
  method ApplyDetails(b: Booking, dto: UpdateBookingDto) returns (booking: Booking)
    ensures booking == PatchBooking(b, dto)
  {
    booking := b;
    if !IsNullOrEmpty(dto.guestName) {
      booking := booking.(guestName := dto.guestName.value);
    }
    if !IsNullOrEmpty(dto.guestEmail) {
      booking := booking.(guestEmail := dto.guestEmail.value);
    }
    if !IsNullOrEmpty(dto.guestPhone) {
      booking := booking.(guestPhone := dto.guestPhone);
    }
    if dto.numberOfGuests.Some? {
      booking := booking.(numberOfGuests := dto.numberOfGuests.value);
    }
    if !IsNullOrEmpty(dto.status) {
      booking := booking.(status := ParseStatus(dto.status.value));
    }
  }

  /** UpdateBookingAsync. */
  method UpdateBooking(db: Database, id: int, dto: UpdateBookingDto, now: Instant)
    returns (r: Result<Option<Booking>, BookingError>)
    requires db.Valid()
    modifies db`bookings
    ensures db.Valid()
    ensures r == UpdateOutcome(db.rooms, old(db.bookings), id, dto, now)
    ensures db.bookings == if r.Success? && r.value.Some? then old(db.bookings)[id := r.value.value]
                           else old(db.bookings)
    ensures NoDoubleBooking(old(db.bookings)) && StaysWellFormed(old(db.bookings))
            ==> NoDoubleBooking(db.bookings) && StaysWellFormed(db.bookings)
  {
    var found := BookingRepository.GetById(db.bookings, id);
    if found.None? {
      return Success(None);
    }
    var booking := found.value;
    if booking.status == Cancelled {
      return Failure(BookingCancelled);
    }
    booking := ApplyDetails(booking, dto);

    if dto.checkIn.Some? || dto.checkOut.Some? {
      var checkIn := dto.checkIn.GetOr(booking.checkIn);
      var checkOut := dto.checkOut.GetOr(booking.checkOut);
      if checkIn >= checkOut {
        return Failure(CheckOutNotAfterCheckIn);
      }
      var room := RoomRepository.GetById(db.rooms, booking.roomId);
      if room.None? {
        return Failure(BookedRoomMissing);
      }
      var isAvailable := BookingRepository.IsRoomAvailable(db.bookings, booking.roomId, checkIn, checkOut, Some(booking.id));
      if !isAvailable {
        return Failure(DatesNotAvailable);
      }
      booking := booking.(checkIn := checkIn, checkOut := checkOut,
                          totalPrice := StayPrice(room.value.pricePerNight, checkIn, checkOut));
      UpdateWithDatesSucceeds(db.rooms, db.bookings, id, dto, now, checkIn, checkOut);
    }

    assert booking.id == id;
    ghost var before := db.bookings;
    assert UpdateOutcome(db.rooms, before, id, dto, now) == Success(Some(booking.(updatedAt := Some(now))));
    var updated := BookingRepository.Update(db, booking, now);
    if NoDoubleBooking(before) && StaysWellFormed(before) {
      UpdateKeepsInvariants(db.rooms, before, id, dto, now);
    }
    return Success(Some(updated));
  }

  // ---------------------------------------------------------------------------
  // Cancel and delete

  /** The Bookings table after CancelBookingAsync: a live booking becomes
      Cancelled and is stamped; an absent or already cancelled one is left
      exactly as it was. */
  function CancelledStore(bookings: map<int, Booking>, id: int, now: Instant): (r: map<int, Booking>)
    ensures r.Keys == bookings.Keys
    ensures forall k :: k in bookings && k != id ==> r[k] == bookings[k]
    ensures id in bookings ==> r[id].status == Cancelled
    ensures id in bookings ==> r[id].(status := bookings[id].status, updatedAt := bookings[id].updatedAt)
                               == bookings[id]
    ensures id in bookings && bookings[id].status == Cancelled ==> r == bookings
  {
    if id in bookings && bookings[id].status != Cancelled
    then bookings[id := bookings[id].(status := Cancelled, updatedAt := Some(now))]
    else bookings
  }

  /** Cancelling twice is cancelling once: the second call writes nothing. */
  lemma CancelIdempotent(bookings: map<int, Booking>, id: int, t1: Instant, t2: Instant)
    ensures CancelledStore(CancelledStore(bookings, id, t1), id, t2) == CancelledStore(bookings, id, t1)
  {
  }

  /** Cancelling never creates a double booking or an inverted stay. */
  lemma CancelKeepsInvariants(bookings: map<int, Booking>, id: int, now: Instant)
    requires NoDoubleBooking(bookings) && StaysWellFormed(bookings)
    ensures NoDoubleBooking(CancelledStore(bookings, id, now)) && StaysWellFormed(CancelledStore(bookings, id, now))
  {
    if id in bookings && bookings[id].status != Cancelled {
      StoreRowPreservesNoDoubleBooking(bookings, id, bookings[id].(status := Cancelled, updatedAt := Some(now)));
    }
  }

  /** CancelBookingAsync: false for an unknown id, true otherwise. */
  method CancelBooking(db: Database, id: int, now: Instant) returns (found: bool)
    requires db.Valid()
    modifies db`bookings
    ensures db.Valid()
    ensures found <==> id in old(db.bookings)
    ensures db.bookings == CancelledStore(old(db.bookings), id, now)
  {
    var booking := BookingRepository.GetById(db.bookings, id);
    if booking.None? {
      return false;
    }
    if booking.value.status == Cancelled {
      return true;
    }
    var cancelled := booking.value.(status := Cancelled);
    var _ := BookingRepository.Update(db, cancelled, now);
    return true;
  }

  /** Removing rows never creates a double booking or an inverted stay. */
  lemma DeleteKeepsInvariants(bookings: map<int, Booking>, id: int)
    requires NoDoubleBooking(bookings) && StaysWellFormed(bookings)
    ensures NoDoubleBooking(bookings - {id}) && StaysWellFormed(bookings - {id})
  {
  }

  /** DeleteBookingAsync: removes the row whatever its status. */
  method DeleteBooking(db: Database, id: int) returns (deleted: bool)
    requires db.Valid()
    modifies db`bookings
    ensures db.Valid()
    ensures deleted <==> id in old(db.bookings)
    ensures db.bookings == old(db.bookings) - {id}
  {
    deleted := BookingRepository.Delete(db, id);
  }
}
