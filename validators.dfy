/** Validators: the FluentValidation rules applied to the five create
    requests before a controller calls a service.  Every rule of a validator
    is evaluated (FluentValidation's default cascade), so a request is
    answered with the message of every failing rule, in rule order.
    `NotEmpty` on a string rejects null, empty and whitespace-only text; on a
    date it rejects `default(DateTime)`, which is day 0 here.  `MaximumLength`
    counts characters.  "Today" and "now" are parameters. */
module Validators {
  import opened Common
  import opened Entities
  import BookingService
  import HotelService
  import RoomService
  import AmenityService
  import ApiKeyService

  /** One failing rule of a validator; `Message` is its `WithMessage` text. */
  datatype Failure =
    | RoomIdNotPositive
    | GuestNameRequired
    | GuestNameTooLong
    | GuestEmailRequired
    | GuestEmailInvalid
    | GuestEmailTooLong
    | CheckInRequired
    | CheckInInPast
    | CheckOutRequired
    | CheckOutNotAfterCheckIn
    | GuestsNotPositive
    | HotelNameRequired
    | HotelNameTooLong
    | AddressRequired
    | AddressTooLong
    | CityRequired
    | CityTooLong
    | CountryRequired
    | CountryTooLong
    | StarRatingOutOfRange
    | HotelIdNotPositive
    | RoomNumberRequired
    | RoomNumberTooLong
    | RoomTypeRequired
    | RoomTypeTooLong
    | PriceNotPositive
    | MaxOccupancyNotPositive
    | AmenityNameRequired
    | AmenityNameTooLong
    | IconRequired
    | IconTooLong
    | ApiKeyNameRequired
    | ApiKeyNameTooLong
    | ExpirationRequired
    | ExpirationNotInFuture

  function Message(f: Failure): string {
    match f
    case RoomIdNotPositive => "Room ID must be greater than 0"
    case GuestNameRequired => "Guest name is required"
    case GuestNameTooLong => "Guest name must not exceed 200 characters"
    case GuestEmailRequired => "Guest email is required"
    case GuestEmailInvalid => "Invalid email format"
    case GuestEmailTooLong => "Guest email must not exceed 200 characters"
    case CheckInRequired => "Check-in date is required"
    case CheckInInPast => "Check-in date cannot be in the past"
    case CheckOutRequired => "Check-out date is required"
    case CheckOutNotAfterCheckIn => "Check-out date must be after check-in date"
    case GuestsNotPositive => "Number of guests must be greater than 0"
    case HotelNameRequired => "Hotel name is required"
    case HotelNameTooLong => "Hotel name must not exceed 200 characters"
    case AddressRequired => "Address is required"
    case AddressTooLong => "Address must not exceed 500 characters"
    case CityRequired => "City is required"
    case CityTooLong => "City must not exceed 100 characters"
    case CountryRequired => "Country is required"
    case CountryTooLong => "Country must not exceed 100 characters"
    case StarRatingOutOfRange => "Star rating must be between 1 and 5"
    case HotelIdNotPositive => "Hotel ID must be greater than 0"
    case RoomNumberRequired => "Room number is required"
    case RoomNumberTooLong => "Room number must not exceed 50 characters"
    case RoomTypeRequired => "Room type is required"
    case RoomTypeTooLong => "Room type must not exceed 50 characters"
    case PriceNotPositive => "Price per night must be greater than 0"
    case MaxOccupancyNotPositive => "Max occupancy must be greater than 0"
    case AmenityNameRequired => "Amenity name is required"
    case AmenityNameTooLong => "Amenity name must not exceed 100 characters"
    case IconRequired => "Icon is required"
    case IconTooLong => "Icon must not exceed 50 characters"
    case ApiKeyNameRequired => "API key name is required"
    case ApiKeyNameTooLong => "API key name must not exceed 100 characters"
    case ExpirationRequired => "Expiration date is required"
    case ExpirationNotInFuture => "Expiration date must be in the future"
  }

  /** The rule's failure when it fails, nothing otherwise. */
  function Check(fails: bool, failure: Failure): (r: seq<Failure>)
    ensures failure in r <==> fails
    ensures |r| <= 1
  {
    if fails then [failure] else []
  }

  /** FluentValidation's `NotEmpty` on a non-null string. */
  predicate Blank(s: string) {
    IsNullOrWhiteSpace(Some(s))
  }

  // ---------------------------------------------------------------------------
  // EmailAddress

  /** `string.IndexOf(char)`: the first position of `c`, or -1. */
  function IndexOf(s: string, c: char): (r: int)
    ensures -1 <= r < |s|
    ensures r >= 0 ==> s[r] == c && forall j :: 0 <= j < r ==> s[j] != c
    ensures r == -1 ==> forall j :: 0 <= j < |s| ==> s[j] != c
  {
    if |s| == 0 then -1
    else if s[0] == c then 0
    else
      var k := IndexOf(s[1..], c);
      if k == -1 then -1 else k + 1
  }

  /** `string.LastIndexOf(char)`: the last position of `c`, or -1. */
  function LastIndexOf(s: string, c: char): (r: int)
    ensures -1 <= r < |s|
    ensures r >= 0 ==> s[r] == c && forall j :: r < j < |s| ==> s[j] != c
    ensures r == -1 ==> forall j :: 0 <= j < |s| ==> s[j] != c
  {
    if |s| == 0 then -1
    else if s[|s| - 1] == c then |s| - 1
    else LastIndexOf(s[..|s| - 1], c)
  }

  /** The `EmailAddress()` check in FluentValidation's default (ASP.NET Core
      compatible) mode: one '@', neither first nor last. */
  predicate IsEmailAddress(s: string) {
    var i := IndexOf(s, '@');
    i > 0 && i != |s| - 1 && i == LastIndexOf(s, '@')
  }

  /** The same check stated without the two searches: exactly one '@', and
      it has a character on each side. */
  lemma EmailAddressHasOneInnerAt(s: string)
    ensures IsEmailAddress(s) <==>
              exists i :: && 0 < i < |s| - 1 && s[i] == '@'
                          && forall j :: 0 <= j < |s| && j != i ==> s[j] != '@'
  {
    var first := IndexOf(s, '@');
    if IsEmailAddress(s) {
      assert 0 < first < |s| - 1 && s[first] == '@';
      assert forall j :: 0 <= j < |s| && j != first ==> s[j] != '@';
    }
  }

  // ---------------------------------------------------------------------------
  // CreateBookingDtoValidator

  /** A request every rule of CreateBookingDtoValidator accepts. */
  predicate BookingRequestValid(dto: BookingService.CreateBookingDto, today: Day) {
    && dto.roomId > 0
    && !Blank(dto.guestName) && |dto.guestName| <= 200
    && !Blank(dto.guestEmail) && IsEmailAddress(dto.guestEmail) && |dto.guestEmail| <= 200
    && dto.checkIn != 0 && dto.checkIn >= today
    && dto.checkOut != 0 && dto.checkOut > dto.checkIn
    && dto.numberOfGuests > 0
  }

  /** CreateBookingDtoValidator: the failure of every failing rule, in rule order. */
  function ValidateBooking(dto: BookingService.CreateBookingDto, today: Day): (errors: seq<Failure>)
    ensures errors == [] <==> BookingRequestValid(dto, today)
    ensures |errors| <= 11
  {
    Check(dto.roomId <= 0, RoomIdNotPositive)
    + Check(Blank(dto.guestName), GuestNameRequired)
    + Check(|dto.guestName| > 200, GuestNameTooLong)
    + Check(Blank(dto.guestEmail), GuestEmailRequired)
    + Check(!IsEmailAddress(dto.guestEmail), GuestEmailInvalid)
    + Check(|dto.guestEmail| > 200, GuestEmailTooLong)
    + Check(dto.checkIn == 0, CheckInRequired)
    + Check(dto.checkIn < today, CheckInInPast)
    + Check(dto.checkOut == 0, CheckOutRequired)
    + Check(dto.checkOut <= dto.checkIn, CheckOutNotAfterCheckIn)
    + Check(dto.numberOfGuests <= 0, GuestsNotPositive)
  }

  /** The room id must be positive. */
  lemma BookingRoomIdRule(dto: BookingService.CreateBookingDto, today: Day)
    ensures RoomIdNotPositive in ValidateBooking(dto, today) <==> dto.roomId <= 0
  {
  }

  /** The guest name must be non-blank and at most 200 characters; each rule reports on its own. */
  lemma BookingGuestNameRules(dto: BookingService.CreateBookingDto, today: Day)
    ensures GuestNameRequired in ValidateBooking(dto, today) <==> Blank(dto.guestName)
    ensures GuestNameTooLong in ValidateBooking(dto, today) <==> |dto.guestName| > 200
  {
  }

  /** The guest email must be non-blank, email-shaped and at most 200 characters. */
  lemma BookingGuestEmailRules(dto: BookingService.CreateBookingDto, today: Day)
    ensures GuestEmailRequired in ValidateBooking(dto, today) <==> Blank(dto.guestEmail)
    ensures GuestEmailInvalid in ValidateBooking(dto, today) <==> !IsEmailAddress(dto.guestEmail)
    ensures GuestEmailTooLong in ValidateBooking(dto, today) <==> |dto.guestEmail| > 200
  {
  }

  /** The check-in date must be set and not before today. */
  lemma BookingCheckInRules(dto: BookingService.CreateBookingDto, today: Day)
    ensures CheckInRequired in ValidateBooking(dto, today) <==> dto.checkIn == 0
    ensures CheckInInPast in ValidateBooking(dto, today) <==> dto.checkIn < today
  {
  }

  /** The check-out date must be set and after the check-in date. */
  lemma BookingCheckOutRules(dto: BookingService.CreateBookingDto, today: Day)
    ensures CheckOutRequired in ValidateBooking(dto, today) <==> dto.checkOut == 0
    ensures CheckOutNotAfterCheckIn in ValidateBooking(dto, today) <==> dto.checkOut <= dto.checkIn
  {
  }

  /** The number of guests must be positive. */
  lemma BookingGuestsRule(dto: BookingService.CreateBookingDto, today: Day)
    ensures GuestsNotPositive in ValidateBooking(dto, today) <==> dto.numberOfGuests <= 0
  {
  }

  /** A request the validator lets through never reaches CreateBookingAsync's
      two date errors: both checks repeat rules of the validator. */
  lemma ValidatedBookingPassesDateChecks(rooms: map<int, Room>, bookings: map<int, Booking>,
                                         dto: BookingService.CreateBookingDto, today: Day)
    requires ValidateBooking(dto, today) == []
    ensures BookingService.CreateRejection(rooms, bookings, dto, today) != Some(BookingService.CheckOutNotAfterCheckIn)
    ensures BookingService.CreateRejection(rooms, bookings, dto, today) != Some(BookingService.CheckInInPast)
  {
  }

  // ---------------------------------------------------------------------------
  // CreateHotelDtoValidator

  /** A request every rule of CreateHotelDtoValidator accepts. */
  predicate HotelRequestValid(dto: HotelService.CreateHotelDto) {
    && !Blank(dto.name) && |dto.name| <= 200
    && !Blank(dto.address) && |dto.address| <= 500
    && !Blank(dto.city) && |dto.city| <= 100
    && !Blank(dto.country) && |dto.country| <= 100
    && 1 <= dto.starRating <= 5
  }

  /** CreateHotelDtoValidator: the failure of every failing rule, in rule order. */
  function ValidateHotel(dto: HotelService.CreateHotelDto): (errors: seq<Failure>)
    ensures errors == [] <==> HotelRequestValid(dto)
    ensures |errors| <= 9
  {
    Check(Blank(dto.name), HotelNameRequired)
    + Check(|dto.name| > 200, HotelNameTooLong)
    + Check(Blank(dto.address), AddressRequired)
    + Check(|dto.address| > 500, AddressTooLong)
    + Check(Blank(dto.city), CityRequired)
    + Check(|dto.city| > 100, CityTooLong)
    + Check(Blank(dto.country), CountryRequired)
    + Check(|dto.country| > 100, CountryTooLong)
    + Check(!(1 <= dto.starRating <= 5), StarRatingOutOfRange)
  }

  /** The name must be non-blank and at most 200 characters. */
  lemma HotelNameRules(dto: HotelService.CreateHotelDto)
    ensures HotelNameRequired in ValidateHotel(dto) <==> Blank(dto.name)
    ensures HotelNameTooLong in ValidateHotel(dto) <==> |dto.name| > 200
  {
  }

  /** The address must be non-blank and at most 500 characters. */
  lemma HotelAddressRules(dto: HotelService.CreateHotelDto)
    ensures AddressRequired in ValidateHotel(dto) <==> Blank(dto.address)
    ensures AddressTooLong in ValidateHotel(dto) <==> |dto.address| > 500
  {
  }

  /** The city must be non-blank and at most 100 characters. */
  lemma HotelCityRules(dto: HotelService.CreateHotelDto)
    ensures CityRequired in ValidateHotel(dto) <==> Blank(dto.city)
    ensures CityTooLong in ValidateHotel(dto) <==> |dto.city| > 100
  {
  }

  /** The country must be non-blank and at most 100 characters. */
  lemma HotelCountryRules(dto: HotelService.CreateHotelDto)
    ensures CountryRequired in ValidateHotel(dto) <==> Blank(dto.country)
    ensures CountryTooLong in ValidateHotel(dto) <==> |dto.country| > 100
  {
  }

  /** The star rating must lie in 1..5, both ends included. */
  lemma HotelStarRatingRule(dto: HotelService.CreateHotelDto)
    ensures StarRatingOutOfRange in ValidateHotel(dto) <==> !(1 <= dto.starRating <= 5)
  {
  }
  // ---------------------------------------------------------------------------
  // CreateRoomDtoValidator

  /** A request every rule of CreateRoomDtoValidator accepts. */
  predicate RoomRequestValid(dto: RoomService.CreateRoomDto) {
    && dto.hotelId > 0
    && !Blank(dto.roomNumber) && |dto.roomNumber| <= 50
    && !Blank(dto.roomType) && |dto.roomType| <= 50
    && dto.pricePerNight > 0.0
    && dto.maxOccupancy > 0
  }

  /** CreateRoomDtoValidator: the failure of every failing rule, in rule order. */
  function ValidateRoom(dto: RoomService.CreateRoomDto): (errors: seq<Failure>)
    ensures errors == [] <==> RoomRequestValid(dto)
    ensures |errors| <= 7
  {
    Check(dto.hotelId <= 0, HotelIdNotPositive)
    + Check(Blank(dto.roomNumber), RoomNumberRequired)
    + Check(|dto.roomNumber| > 50, RoomNumberTooLong)
    + Check(Blank(dto.roomType), RoomTypeRequired)
    + Check(|dto.roomType| > 50, RoomTypeTooLong)
    + Check(dto.pricePerNight <= 0.0, PriceNotPositive)
    + Check(dto.maxOccupancy <= 0, MaxOccupancyNotPositive)
  }

  /** The hotel id must be positive. */
  lemma RoomHotelIdRule(dto: RoomService.CreateRoomDto)
    ensures HotelIdNotPositive in ValidateRoom(dto) <==> dto.hotelId <= 0
  {
  }

  /** The room number must be non-blank and at most 50 characters. */
  lemma RoomNumberRules(dto: RoomService.CreateRoomDto)
    ensures RoomNumberRequired in ValidateRoom(dto) <==> Blank(dto.roomNumber)
    ensures RoomNumberTooLong in ValidateRoom(dto) <==> |dto.roomNumber| > 50
  {
  }

  /** The room type must be non-blank and at most 50 characters. */
  lemma RoomTypeRules(dto: RoomService.CreateRoomDto)
    ensures RoomTypeRequired in ValidateRoom(dto) <==> Blank(dto.roomType)
    ensures RoomTypeTooLong in ValidateRoom(dto) <==> |dto.roomType| > 50
  {
  }

  /** The nightly price and the maximum occupancy must be positive. */
  lemma RoomPriceAndOccupancyRules(dto: RoomService.CreateRoomDto)
    ensures PriceNotPositive in ValidateRoom(dto) <==> dto.pricePerNight <= 0.0
    ensures MaxOccupancyNotPositive in ValidateRoom(dto) <==> dto.maxOccupancy <= 0
  {
  }
  // ---------------------------------------------------------------------------
  // CreateAmenityDtoValidator

  /** A request every rule of CreateAmenityDtoValidator accepts. */
  predicate AmenityRequestValid(dto: AmenityService.CreateAmenityDto) {
    && !Blank(dto.name) && |dto.name| <= 100
    && !Blank(dto.icon) && |dto.icon| <= 50
  }

  /** CreateAmenityDtoValidator: the failure of every failing rule, in rule order. */
  function ValidateAmenity(dto: AmenityService.CreateAmenityDto): (errors: seq<Failure>)
    ensures errors == [] <==> AmenityRequestValid(dto)
    ensures |errors| <= 4
  {
    Check(Blank(dto.name), AmenityNameRequired)
    + Check(|dto.name| > 100, AmenityNameTooLong)
    + Check(Blank(dto.icon), IconRequired)
    + Check(|dto.icon| > 50, IconTooLong)
  }

  /** The name must be non-blank and at most 100 characters. */
  lemma AmenityNameRules(dto: AmenityService.CreateAmenityDto)
    ensures AmenityNameRequired in ValidateAmenity(dto) <==> Blank(dto.name)
    ensures AmenityNameTooLong in ValidateAmenity(dto) <==> |dto.name| > 100
  {
  }

  /** The icon must be non-blank and at most 50 characters. */
  lemma AmenityIconRules(dto: AmenityService.CreateAmenityDto)
    ensures IconRequired in ValidateAmenity(dto) <==> Blank(dto.icon)
    ensures IconTooLong in ValidateAmenity(dto) <==> |dto.icon| > 50
  {
  }
  // ---------------------------------------------------------------------------
  // CreateApiKeyDtoValidator

  /** A request every rule of CreateApiKeyDtoValidator accepts. */
  predicate ApiKeyRequestValid(dto: ApiKeyService.CreateApiKeyDto, now: Instant) {
    && !Blank(dto.name) && |dto.name| <= 100
    && dto.expiresAt != 0 && dto.expiresAt > now
  }

  /** CreateApiKeyDtoValidator: the failure of every failing rule, in rule order. */
  function ValidateApiKey(dto: ApiKeyService.CreateApiKeyDto, now: Instant): (errors: seq<Failure>)
    ensures errors == [] <==> ApiKeyRequestValid(dto, now)
    ensures |errors| <= 4
  {
    Check(Blank(dto.name), ApiKeyNameRequired)
    + Check(|dto.name| > 100, ApiKeyNameTooLong)
    + Check(dto.expiresAt == 0, ExpirationRequired)
    + Check(dto.expiresAt <= now, ExpirationNotInFuture)
  }

  /** The name must be non-blank and at most 100 characters. */
  lemma ApiKeyNameRules(dto: ApiKeyService.CreateApiKeyDto, now: Instant)
    ensures ApiKeyNameRequired in ValidateApiKey(dto, now) <==> Blank(dto.name)
    ensures ApiKeyNameTooLong in ValidateApiKey(dto, now) <==> |dto.name| > 100
  {
  }

  /** The expiry must be set and strictly later than now. */
  lemma ApiKeyExpiryRules(dto: ApiKeyService.CreateApiKeyDto, now: Instant)
    ensures ExpirationRequired in ValidateApiKey(dto, now) <==> dto.expiresAt == 0
    ensures ExpirationNotInFuture in ValidateApiKey(dto, now) <==> dto.expiresAt <= now
  {
  }
}
