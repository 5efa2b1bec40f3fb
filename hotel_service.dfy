/** HotelService: creating a hotel from a request and the partial update of
    a stored hotel.  The read and delete operations forward to the
    repository and are modelled there. */
module HotelService {
  import opened Common
  import opened Entities
  import opened Data
  import HotelRepository

  datatype CreateHotelDto = CreateHotelDto(
    name: string,
    address: string,
    city: string,
    country: string,
    description: Option<string>,
    starRating: int)

  /** Every field optional: `None` is a null in the request. */
  datatype UpdateHotelDto = UpdateHotelDto(
    name: Option<string>,
    address: Option<string>,
    city: Option<string>,
    country: Option<string>,
    description: Option<string>,
    starRating: Option<int>)

  /** The field-by-field patch of UpdateHotelAsync: a string replaces its
      field only when neither null nor empty, the rating whenever supplied. */
  function PatchHotel(h: Hotel, dto: UpdateHotelDto): (p: Hotel)
    ensures p.id == h.id && p.createdAt == h.createdAt && p.updatedAt == h.updatedAt
    ensures IsNullOrEmpty(dto.name) ==> p.name == h.name
    ensures !IsNullOrEmpty(dto.name) ==> p.name == dto.name.value
    ensures IsNullOrEmpty(dto.address) ==> p.address == h.address
    ensures !IsNullOrEmpty(dto.address) ==> p.address == dto.address.value
    ensures IsNullOrEmpty(dto.city) ==> p.city == h.city
    ensures !IsNullOrEmpty(dto.city) ==> p.city == dto.city.value
    ensures IsNullOrEmpty(dto.country) ==> p.country == h.country
    ensures !IsNullOrEmpty(dto.country) ==> p.country == dto.country.value
    ensures IsNullOrEmpty(dto.description) ==> p.description == h.description
    ensures !IsNullOrEmpty(dto.description) ==> p.description == dto.description
    ensures p.starRating == if dto.starRating.Some? then dto.starRating.value else h.starRating
  {
    h.(name := PickString(dto.name, h.name),
       address := PickString(dto.address, h.address),
       city := PickString(dto.city, h.city),
       country := PickString(dto.country, h.country),
       description := PickNullableString(dto.description, h.description),
       starRating := PickValue(dto.starRating, h.starRating))
  }

  /** Applying the same update twice gives the hotel of applying it once. */
  lemma PatchHotelIdempotent(h: Hotel, dto: UpdateHotelDto)
    ensures PatchHotel(PatchHotel(h, dto), dto) == PatchHotel(h, dto)
  {
  }

  /** A request with every field null changes nothing. */
  lemma EmptyHotelPatchIsIdentity(h: Hotel)
    ensures PatchHotel(h, UpdateHotelDto(None, None, None, None, None, None)) == h
  {
  }

  /** A description, once set, cannot be cleared: neither a null nor an empty
      string reaches the field. */
  lemma DescriptionNeverCleared(h: Hotel, dto: UpdateHotelDto)
    requires h.description.Some?
    ensures PatchHotel(h, dto).description.Some?
    ensures PatchHotel(h, dto).description.value == h.description.value
            || PatchHotel(h, dto).description.value != ""
  {
  }

  /** The hotel CreateHotelAsync hands to the repository: the request's fields
      over the entity's defaults. */
  function HotelFromRequest(dto: CreateHotelDto): (h: Hotel)
    ensures h.name == dto.name && h.address == dto.address && h.city == dto.city
    ensures h.country == dto.country && h.description == dto.description
    ensures h.starRating == dto.starRating && h.updatedAt == None
  {
    Hotel(0, dto.name, dto.address, dto.city, dto.country, dto.description, dto.starRating, 0, None)
  }

  /** CreateHotelAsync: the stored hotel carries the request's fields under a
      new id. */
  method CreateHotel(db: Database, dto: CreateHotelDto, now: Instant) returns (created: Hotel)
    requires db.Valid()
    modifies db`hotels, db`nextHotelId
    ensures db.Valid()
    ensures created == HotelFromRequest(dto).(id := created.id, createdAt := now)
    ensures created.id > 0 && created.id !in old(db.hotels)
    ensures db.hotels == old(db.hotels)[created.id := created]
  {
    var hotel := HotelFromRequest(dto);
    created := HotelRepository.Create(db, hotel, now);
  }

  /** UpdateHotelAsync: `None` (a null result) and no write for an unknown
      id; otherwise the patched hotel is stamped and stored. */
  method UpdateHotel(db: Database, id: int, dto: UpdateHotelDto, now: Instant) returns (r: Option<Hotel>)
    requires db.Valid()
    modifies db`hotels
    ensures db.Valid()
    ensures r.None? <==> id !in old(db.hotels)
    ensures r.None? ==> db.hotels == old(db.hotels)
    ensures r.Some? ==> && r.value == PatchHotel(old(db.hotels)[id], dto).(updatedAt := Some(now))
                        && db.hotels == old(db.hotels)[id := r.value]
  {
    var found := HotelRepository.GetById(db.hotels, id);
    if found.None? {
      return None;
    }
    var hotel := found.value;

    if !IsNullOrEmpty(dto.name) {
      hotel := hotel.(name := dto.name.value);
    }
    if !IsNullOrEmpty(dto.address) {
      hotel := hotel.(address := dto.address.value);
    }
    if !IsNullOrEmpty(dto.city) {
      hotel := hotel.(city := dto.city.value);
    }
    if !IsNullOrEmpty(dto.country) {
      hotel := hotel.(country := dto.country.value);
    }
    if !IsNullOrEmpty(dto.description) {
      hotel := hotel.(description := dto.description);
    }
    if dto.starRating.Some? {
      hotel := hotel.(starRating := dto.starRating.value);
    }
    assert hotel == PatchHotel(found.value, dto);

    var updated := HotelRepository.Update(db, hotel, now);
    return Some(updated);
  }
}
