/** The persisted records of HotelBooking/Models/Entities, as values.  The
    services fetch a record, change some of its fields and write it back; in
    the model that is a local copy updated field by field and stored again. */
module Entities {
  import opened Common

  /** A calendar date as a day number; day 0 is `default(DateTime)`. */
  type Day = int

  /** A UTC timestamp (`DateTime.UtcNow`), supplied by the caller. */
  type Instant = int

  /** A C# `decimal` amount; the model does not round. */
  type Money = real

  /** Booking status: the four documented names (Booking.cs:14) and any other
      string an update may write. */
  datatype BookingStatus = Pending | Confirmed | Cancelled | Completed | Other(name: string)

  const KnownStatusNames: set<string> := {"Pending", "Confirmed", "Cancelled", "Completed"}

  /** A status value in canonical form: `Other` never carries one of the four
      known names, so comparing with `Cancelled` is comparing the strings. */
  type Status = s: BookingStatus | s.Other? ==> s.name !in KnownStatusNames witness Pending

  /** The string stored in the Status column. */
  function StatusName(s: BookingStatus): string {
    match s
    case Pending => "Pending"
    case Confirmed => "Confirmed"
    case Cancelled => "Cancelled"
    case Completed => "Completed"
    case Other(name) => name
  }

  /** Reads a Status column value. */
  function ParseStatus(name: string): (s: Status)
    ensures StatusName(s) == name
    ensures s == Cancelled <==> name == "Cancelled"
  {
    if name == "Pending" then Pending
    else if name == "Confirmed" then Confirmed
    else if name == "Cancelled" then Cancelled
    else if name == "Completed" then Completed
    else Other(name)
  }

  /** Distinct canonical statuses are stored as distinct strings, so the model's
      status equals the source's string comparison. */
  lemma StatusNameInjective(a: Status, b: Status)
    requires StatusName(a) == StatusName(b)
    ensures a == b
  {
  }

  datatype Hotel = Hotel(
    id: int,
    name: string,
    address: string,
    city: string,
    country: string,
    description: Option<string>,
    starRating: int,
    createdAt: Instant,
    updatedAt: Option<Instant>)

  datatype Room = Room(
    id: int,
    hotelId: int,
    roomNumber: string,
    roomType: string,
    pricePerNight: Money,
    maxOccupancy: int,
    description: Option<string>,
    isAvailable: bool,
    createdAt: Instant,
    updatedAt: Option<Instant>)

  /** A reservation of room `roomId` for the nights `[checkIn, checkOut)`. */
  datatype Booking = Booking(
    id: int,
    roomId: int,
    guestName: string,
    guestEmail: string,
    guestPhone: Option<string>,
    checkIn: Day,
    checkOut: Day,
    numberOfGuests: int,
    totalPrice: Money,
    status: Status,
    createdAt: Instant,
    updatedAt: Option<Instant>)

  datatype Facility = Facility(
    id: int,
    name: string,
    description: Option<string>,
    icon: string,
    createdAt: Instant)

  datatype Amenity = Amenity(
    id: int,
    name: string,
    description: Option<string>,
    icon: string,
    createdAt: Instant)

  /** A row of the hotel-facility link table. */
  datatype HotelFacility = HotelFacility(hotelId: int, facilityId: int)

  /** A row of the room-amenity link table. */
  datatype RoomAmenity = RoomAmenity(roomId: int, amenityId: int)

  datatype ApiKey = ApiKey(
    id: int,
    key: string,
    name: string,
    description: Option<string>,
    isActive: bool,
    expiresAt: Instant,
    createdAt: Instant,
    lastUsedAt: Option<Instant>)

  /** User.cs plus the two columns AuthService reads and writes (`IsActive`,
      `LastLoginAt`), which the entity file does not declare. */
  datatype User = User(
    id: int,
    username: string,
    email: string,
    passwordHash: string,
    role: string,
    createdAt: Instant,
    updatedAt: Option<Instant>,
    isActive: bool,
    lastLoginAt: Option<Instant>)
}
