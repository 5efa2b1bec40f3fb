/** RoomRepository: queries over the Rooms table, the available-room search,
    and the three writes. */
module RoomRepository {
  import opened Common
  import opened Entities
  import opened Data
  import BookingRepository

  /** GetByIdAsync. */
  function GetById(rooms: map<int, Room>, id: int): (r: Option<Room>)
    ensures r.Some? <==> id in rooms
    ensures r.Some? ==> r.value == rooms[id]
  {
    if id in rooms then Some(rooms[id]) else None
  }

  /** ExistsAsync: some row carries this id. */
  predicate Exists(rooms: map<int, Room>, id: int) {
    exists k :: k in rooms && rooms[k].id == id
  }

  /** In a keyed table, ExistsAsync agrees with GetByIdAsync. */
  lemma ExistsIffFound(rooms: map<int, Room>, id: int)
    requires forall k :: k in rooms ==> rooms[k].id == k
    ensures Exists(rooms, id) <==> GetById(rooms, id).Some?
  {
    if id in rooms {
      assert rooms[id].id == id;
    }
  }

  /** GetByHotelIdAsync: exactly the rooms of one hotel. */
  function GetByHotelId(rooms: map<int, Room>, hotelId: int): (r: map<int, Room>)
    ensures forall id :: id in r <==> id in rooms && rooms[id].hotelId == hotelId
    ensures forall id :: id in r ==> r[id] == rooms[id]
  {
    map id | id in rooms && rooms[id].hotelId == hotelId :: rooms[id]
  }

  /** The first query of GetAvailableRoomsAsync: the rooms some live booking
      collides with, by the same three clauses as IsRoomAvailableAsync. */
  function BookedRoomIds(bookings: map<int, Booking>, checkIn: Day, checkOut: Day): set<int> {
    set id | id in bookings && bookings[id].status != Cancelled
                            && BookingRepository.Collides(bookings[id], checkIn, checkOut)
           :: bookings[id].roomId
  }

  /** GetAvailableRoomsAsync: rooms of the hotel whose flag is on and that no
      live booking collides with. */
  function GetAvailableRooms(rooms: map<int, Room>, bookings: map<int, Booking>, hotelId: int,
                             checkIn: Day, checkOut: Day): (r: map<int, Room>)
    ensures forall id :: id in r ==> id in rooms && r[id] == rooms[id]
    ensures forall id :: id in r ==> r[id].hotelId == hotelId && r[id].isAvailable
  {
    var bookedRoomIds := BookedRoomIds(bookings, checkIn, checkOut);
    map id | id in rooms && rooms[id].hotelId == hotelId && rooms[id].isAvailable
                         && rooms[id].id !in bookedRoomIds
           :: rooms[id]
  }

  /** A room of the hotel is offered exactly when its flag is on and the
      booking engine's own availability test (no exclusion) accepts it. */
  lemma AvailableRoomsAgreeWithIsRoomAvailable(rooms: map<int, Room>, bookings: map<int, Booking>,
                                               hotelId: int, checkIn: Day, checkOut: Day, id: int)
    requires forall k :: k in rooms ==> rooms[k].id == k
    ensures id in GetAvailableRooms(rooms, bookings, hotelId, checkIn, checkOut)
            <==> && id in rooms && rooms[id].hotelId == hotelId && rooms[id].isAvailable
                 && BookingRepository.IsRoomAvailable(bookings, id, checkIn, checkOut, None)
  {
    var booked := BookedRoomIds(bookings, checkIn, checkOut);
    if id in rooms {
      assert rooms[id].id == id;
      if id in booked {
        var b :| b in bookings && bookings[b].status != Cancelled
                 && BookingRepository.Collides(bookings[b], checkIn, checkOut) && bookings[b].roomId == id;
        assert BookingRepository.Blocks(bookings[b], id, checkIn, checkOut, None);
      }
    }
  }

  /** The search never offers a room of another hotel and never more than
      GetByHotelIdAsync lists. */
  lemma AvailableRoomsWithinHotel(rooms: map<int, Room>, bookings: map<int, Booking>,
                                  hotelId: int, checkIn: Day, checkOut: Day)
    ensures GetAvailableRooms(rooms, bookings, hotelId, checkIn, checkOut).Keys
            <= GetByHotelId(rooms, hotelId).Keys
  {
  }

  /** CreateAsync: stamps CreatedAt and inserts the row under a new id. */
  method Create(db: Database, room: Room, now: Instant) returns (created: Room)
    requires db.Valid()
    modifies db`rooms, db`nextRoomId
    ensures db.Valid()
    ensures created == room.(id := old(db.nextRoomId), createdAt := now)
    ensures created.id > 0 && created.id !in old(db.rooms)
    ensures db.rooms == old(db.rooms)[created.id := created]
  {
    created := room.(id := db.nextRoomId, createdAt := now);
    db.rooms := db.rooms[created.id := created];
    db.nextRoomId := db.nextRoomId + 1;
  }

  /** UpdateAsync: stamps UpdatedAt and replaces the stored row. */
  method Update(db: Database, room: Room, now: Instant) returns (updated: Room)
    requires db.Valid() && room.id in db.rooms
    modifies db`rooms
    ensures db.Valid()
    ensures updated == room.(updatedAt := Some(now))
    ensures db.rooms == old(db.rooms)[room.id := updated]
  {
    updated := room.(updatedAt := Some(now));
    db.rooms := db.rooms[room.id := updated];
  }

  /** DeleteAsync: false and no change for an absent id; otherwise removes
      only that room. */
  method Delete(db: Database, id: int) returns (deleted: bool)
    requires db.Valid()
    modifies db`rooms
    ensures db.Valid()
    ensures deleted <==> id in old(db.rooms)
    ensures db.rooms == old(db.rooms) - {id}
  {
    if id !in db.rooms {
      return false;
    }
    db.rooms := db.rooms - {id};
    return true;
  }
}
