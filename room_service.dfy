/** RoomService: creating a room under an existing hotel and the partial
    update of a stored room.  The read and delete operations forward to the
    repository and are modelled there. */
module RoomService {
  import opened Common
  import opened Entities
  import opened Data
  import HotelRepository
  import RoomRepository

  /** The `ArgumentException("Hotel not found")` of CreateRoomAsync. */
  datatype RoomError = HotelNotFound

  datatype CreateRoomDto = CreateRoomDto(
    hotelId: int,
    roomNumber: string,
    roomType: string,
    pricePerNight: Money,
    maxOccupancy: int,
    description: Option<string>)

  /** Every field optional: `None` is a null in the request. */
  datatype UpdateRoomDto = UpdateRoomDto(
    roomNumber: Option<string>,
    roomType: Option<string>,
    pricePerNight: Option<Money>,
    maxOccupancy: Option<int>,
    description: Option<string>,
    isAvailable: Option<bool>)

  /** The room CreateRoomAsync hands to the repository: the request's fields
      over the entity's defaults, so a new room is bookable. */
  function RoomFromRequest(dto: CreateRoomDto): (r: Room)
    ensures r.hotelId == dto.hotelId && r.roomNumber == dto.roomNumber && r.roomType == dto.roomType
    ensures r.pricePerNight == dto.pricePerNight && r.maxOccupancy == dto.maxOccupancy
    ensures r.description == dto.description && r.isAvailable && r.updatedAt == None
  {
    Room(0, dto.hotelId, dto.roomNumber, dto.roomType, dto.pricePerNight, dto.maxOccupancy,
         dto.description, true, 0, None)
  }

  /** CreateRoomAsync: refused, with no write, unless the hotel exists;
      otherwise the room is stored under a new id. */
  method CreateRoom(db: Database, dto: CreateRoomDto, now: Instant) returns (r: Result<Room, RoomError>)
    requires db.Valid()
    modifies db`rooms, db`nextRoomId
    ensures db.Valid()
    ensures r.Failure? <==> dto.hotelId !in db.hotels
    ensures r.Failure? ==> db.rooms == old(db.rooms)
    ensures r.Success? ==> && r.value == RoomFromRequest(dto).(id := r.value.id, createdAt := now)
                           && r.value.id > 0 && r.value.id !in old(db.rooms)
                           && db.rooms == old(db.rooms)[r.value.id := r.value]
  {
    HotelRepository.ExistsIffFound(db.hotels, dto.hotelId);
    if !HotelRepository.Exists(db.hotels, dto.hotelId) {
      return Failure(HotelNotFound);
    }
    var room := RoomFromRequest(dto);
    var created := RoomRepository.Create(db, room, now);
    return Success(created);
  }

  /** The field-by-field patch of UpdateRoomAsync: strings replace only when
      neither null nor empty, the other fields whenever supplied.  The room
      keeps its id and its hotel. */
  function PatchRoom(room: Room, dto: UpdateRoomDto): (p: Room)
    ensures p.id == room.id && p.hotelId == room.hotelId
    ensures p.createdAt == room.createdAt && p.updatedAt == room.updatedAt
    ensures IsNullOrEmpty(dto.roomNumber) ==> p.roomNumber == room.roomNumber
    ensures !IsNullOrEmpty(dto.roomNumber) ==> p.roomNumber == dto.roomNumber.value
    ensures IsNullOrEmpty(dto.roomType) ==> p.roomType == room.roomType
    ensures !IsNullOrEmpty(dto.roomType) ==> p.roomType == dto.roomType.value
    ensures p.pricePerNight == if dto.pricePerNight.Some? then dto.pricePerNight.value else room.pricePerNight
    ensures p.maxOccupancy == if dto.maxOccupancy.Some? then dto.maxOccupancy.value else room.maxOccupancy
    ensures IsNullOrEmpty(dto.description) ==> p.description == room.description
    ensures !IsNullOrEmpty(dto.description) ==> p.description == dto.description
    ensures p.isAvailable == if dto.isAvailable.Some? then dto.isAvailable.value else room.isAvailable
  {
    room.(roomNumber := PickString(dto.roomNumber, room.roomNumber),
          roomType := PickString(dto.roomType, room.roomType),
          pricePerNight := PickValue(dto.pricePerNight, room.pricePerNight),
          maxOccupancy := PickValue(dto.maxOccupancy, room.maxOccupancy),
          description := PickNullableString(dto.description, room.description),
          isAvailable := PickValue(dto.isAvailable, room.isAvailable))
  }

  /** Applying the same update twice gives the room of applying it once. */
  lemma PatchRoomIdempotent(room: Room, dto: UpdateRoomDto)
    ensures PatchRoom(PatchRoom(room, dto), dto) == PatchRoom(room, dto)
  {
  }

  /** A request with every field null changes nothing. */
  lemma EmptyRoomPatchIsIdentity(room: Room)
    ensures PatchRoom(room, UpdateRoomDto(None, None, None, None, None, None)) == room
  {
  }

  /** An update never moves a room to another hotel: every hotel's room list
      keeps the same ids. */
  lemma UpdateKeepsHotelRoomLists(rooms: map<int, Room>, id: int, dto: UpdateRoomDto, now: Instant, hotelId: int)
    requires id in rooms
    ensures RoomRepository.GetByHotelId(rooms[id := PatchRoom(rooms[id], dto).(updatedAt := Some(now))], hotelId).Keys
            == RoomRepository.GetByHotelId(rooms, hotelId).Keys
  {
    var after := rooms[id := PatchRoom(rooms[id], dto).(updatedAt := Some(now))];
    assert forall k :: k in after ==> after[k].hotelId == rooms[k].hotelId;
  }

  /** UpdateRoomAsync: `None` (a null result) and no write for an unknown id;
      otherwise the patched room is stamped and stored. */
  method UpdateRoom(db: Database, id: int, dto: UpdateRoomDto, now: Instant) returns (r: Option<Room>)
    requires db.Valid()
    modifies db`rooms
    ensures db.Valid()
    ensures r.None? <==> id !in old(db.rooms)
    ensures r.None? ==> db.rooms == old(db.rooms)
    ensures r.Some? ==> && r.value == PatchRoom(old(db.rooms)[id], dto).(updatedAt := Some(now))
                        && db.rooms == old(db.rooms)[id := r.value]
  {
    var found := RoomRepository.GetById(db.rooms, id);
    if found.None? {
      return None;
    }
    var room := found.value;

    if !IsNullOrEmpty(dto.roomNumber) {
      room := room.(roomNumber := dto.roomNumber.value);
    }
    if !IsNullOrEmpty(dto.roomType) {
      room := room.(roomType := dto.roomType.value);
    }
    if dto.pricePerNight.Some? {
      room := room.(pricePerNight := dto.pricePerNight.value);
    }
    if dto.maxOccupancy.Some? {
      room := room.(maxOccupancy := dto.maxOccupancy.value);
    }
    if !IsNullOrEmpty(dto.description) {
      room := room.(description := dto.description);
    }
    if dto.isAvailable.Some? {
      room := room.(isAvailable := dto.isAvailable.value);
    }
    assert room == PatchRoom(found.value, dto);

    var updated := RoomRepository.Update(db, room, now);
    return Some(updated);
  }
}
