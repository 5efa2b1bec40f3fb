/** The database context (HotelBookingDbContext): one object holding every
    table the services read and change.  Identity columns are modelled by a
    counter per table; a new row takes the counter's value. */
module Data {
  import opened Common
  import opened Entities

  /** No two users share a username and no two share an email: the unique
      indexes at HotelBookingDbContext.cs:73-74. */
  ghost predicate UniqueLogins(users: seq<User>) {
    forall i, j :: 0 <= i < j < |users| ==>
      users[i].username != users[j].username && users[i].email != users[j].email
  }

  /** Rows of an identity-keyed table listed in ascending id order. */
  ghost predicate AscendingApiKeyIds(keys: seq<ApiKey>, next: int) {
    && 0 < next
    && (forall i :: 0 <= i < |keys| ==> 0 < keys[i].id < next)
    && (forall i, j :: 0 <= i < j < |keys| ==> keys[i].id < keys[j].id)
  }

  ghost predicate AscendingUserIds(users: seq<User>, next: int) {
    && 0 < next
    && (forall i :: 0 <= i < |users| ==> 0 < users[i].id < next)
    && (forall i, j :: 0 <= i < j < |users| ==> users[i].id < users[j].id)
  }

  class Database {
    var hotels: map<int, Hotel>
    var rooms: map<int, Room>
    var bookings: map<int, Booking>
    var facilities: map<int, Facility>
    var amenities: map<int, Amenity>
    var hotelFacilities: seq<HotelFacility>
    var roomAmenities: seq<RoomAmenity>
    var apiKeys: seq<ApiKey>
    var users: seq<User>

    var nextHotelId: int
    var nextRoomId: int
    var nextBookingId: int
    var nextFacilityId: int
    var nextAmenityId: int
    var nextApiKeyId: int
    var nextUserId: int

    ghost predicate HotelsValid()
      reads this`hotels, this`nextHotelId
    {
      && 0 < nextHotelId
      && forall id :: id in hotels ==> hotels[id].id == id && 0 < id < nextHotelId
    }

    ghost predicate RoomsValid()
      reads this`rooms, this`nextRoomId
    {
      && 0 < nextRoomId
      && forall id :: id in rooms ==> rooms[id].id == id && 0 < id < nextRoomId
    }

    ghost predicate BookingsValid()
      reads this`bookings, this`nextBookingId
    {
      && 0 < nextBookingId
      && forall id :: id in bookings ==> bookings[id].id == id && 0 < id < nextBookingId
    }

    ghost predicate FacilitiesValid()
      reads this`facilities, this`nextFacilityId
    {
      && 0 < nextFacilityId
      && forall id :: id in facilities ==> facilities[id].id == id && 0 < id < nextFacilityId
    }

    ghost predicate AmenitiesValid()
      reads this`amenities, this`nextAmenityId
    {
      && 0 < nextAmenityId
      && forall id :: id in amenities ==> amenities[id].id == id && 0 < id < nextAmenityId
    }

    ghost predicate ApiKeysValid()
      reads this`apiKeys, this`nextApiKeyId
    {
      AscendingApiKeyIds(apiKeys, nextApiKeyId)
    }

    ghost predicate UsersValid()
      reads this`users, this`nextUserId
    {
      AscendingUserIds(users, nextUserId) && UniqueLogins(users)
    }

    /** The database's own constraints: primary keys and the unique indexes. */
    ghost predicate Valid()
      reads this
    {
      && HotelsValid() && RoomsValid() && BookingsValid()
      && FacilitiesValid() && AmenitiesValid()
      && ApiKeysValid() && UsersValid()
    }

    constructor ()
      ensures Valid()
      ensures hotels == map[] && rooms == map[] && bookings == map[]
      ensures facilities == map[] && amenities == map[]
      ensures hotelFacilities == [] && roomAmenities == [] && apiKeys == [] && users == []
    {
      hotels, rooms, bookings := map[], map[], map[];
      facilities, amenities := map[], map[];
      hotelFacilities, roomAmenities, apiKeys, users := [], [], [], [];
      nextHotelId, nextRoomId, nextBookingId := 1, 1, 1;
      nextFacilityId, nextAmenityId, nextApiKeyId, nextUserId := 1, 1, 1, 1;
    }
  }
}
