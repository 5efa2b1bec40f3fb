/** FacilityService: creating and partially updating a facility, and the
    hotel-facility link table with its add, remove and join. */
module FacilityService {
  import opened Common
  import opened Entities
  import opened Data
  import opened LinkTable
  import HotelRepository

  /** The two `ArgumentException`s of AddFacilityToHotelAsync. */
  datatype LinkError = HotelNotFound | FacilityNotFound

  datatype CreateFacilityDto = CreateFacilityDto(
    name: string,
    description: Option<string>,
    icon: string)

  /** Every field optional: `None` is a null in the request. */
  datatype UpdateFacilityDto = UpdateFacilityDto(
    name: Option<string>,
    description: Option<string>,
    icon: Option<string>)

  /** CreateFacilityAsync: the request's fields under a new id, stamped by the
      repository. */
  method CreateFacility(db: Database, dto: CreateFacilityDto, now: Instant) returns (created: Facility)
    requires db.Valid()
    modifies db`facilities, db`nextFacilityId
    ensures db.Valid()
    ensures created == Facility(old(db.nextFacilityId), dto.name, dto.description, dto.icon, now)
    ensures created.id > 0 && created.id !in old(db.facilities)
    ensures db.facilities == old(db.facilities)[created.id := created]
  {
    var facility := Facility(0, dto.name, dto.description, dto.icon, 0);
    created := facility.(id := db.nextFacilityId, createdAt := now);
    db.facilities := db.facilities[created.id := created];
    db.nextFacilityId := db.nextFacilityId + 1;
  }

  /** The field-by-field patch of UpdateFacilityAsync: each string replaces
      its field only when neither null nor empty. */
  function PatchFacility(f: Facility, dto: UpdateFacilityDto): (p: Facility)
    ensures p.id == f.id && p.createdAt == f.createdAt
    ensures IsNullOrEmpty(dto.name) ==> p.name == f.name
    ensures !IsNullOrEmpty(dto.name) ==> p.name == dto.name.value
    ensures IsNullOrEmpty(dto.description) ==> p.description == f.description
    ensures !IsNullOrEmpty(dto.description) ==> p.description == dto.description
    ensures IsNullOrEmpty(dto.icon) ==> p.icon == f.icon
    ensures !IsNullOrEmpty(dto.icon) ==> p.icon == dto.icon.value
  {
    f.(name := PickString(dto.name, f.name),
       description := PickNullableString(dto.description, f.description),
       icon := PickString(dto.icon, f.icon))
  }

  /** Applying the same update twice gives the facility of applying it once. */
  lemma PatchFacilityIdempotent(f: Facility, dto: UpdateFacilityDto)
    ensures PatchFacility(PatchFacility(f, dto), dto) == PatchFacility(f, dto)
  {
  }

  /** UpdateFacilityAsync: `None` and no write for an unknown id; otherwise
      the patched facility is stored (the repository stamps nothing). */
  method UpdateFacility(db: Database, id: int, dto: UpdateFacilityDto) returns (r: Option<Facility>)
    requires db.Valid()
    modifies db`facilities
    ensures db.Valid()
    ensures r.None? <==> id !in old(db.facilities)
    ensures r.None? ==> db.facilities == old(db.facilities)
    ensures r.Some? ==> && r.value == PatchFacility(old(db.facilities)[id], dto)
                        && db.facilities == old(db.facilities)[id := r.value]
  {
    if id !in db.facilities {
      return None;
    }
    var facility := db.facilities[id];

    if !IsNullOrEmpty(dto.name) {
      facility := facility.(name := dto.name.value);
    }
    if !IsNullOrEmpty(dto.description) {
      facility := facility.(description := dto.description);
    }
    if !IsNullOrEmpty(dto.icon) {
      facility := facility.(icon := dto.icon.value);
    }
    assert facility == PatchFacility(db.facilities[id], dto);

    db.facilities := db.facilities[id := facility];
    return Some(facility);
  }

  /** AddFacilityToHotelAsync: the hotel is checked before the facility;
      an existing pair gives `false`; otherwise the pair is appended. */
  method AddFacilityToHotel(db: Database, hotelId: int, facilityId: int) returns (r: Result<bool, LinkError>)
    requires db.Valid()
    modifies db`hotelFacilities
    ensures db.Valid()
    ensures r == Failure(HotelNotFound) <==> hotelId !in db.hotels
    ensures r == Failure(FacilityNotFound) <==> hotelId in db.hotels && facilityId !in db.facilities
    ensures r == Success(false) <==> && hotelId in db.hotels && facilityId in db.facilities
                                     && HotelFacility(hotelId, facilityId) in old(db.hotelFacilities)
    ensures r == Success(true) <==> && hotelId in db.hotels && facilityId in db.facilities
                                    && HotelFacility(hotelId, facilityId) !in old(db.hotelFacilities)
    ensures db.hotelFacilities == if r == Success(true)
                                  then old(db.hotelFacilities) + [HotelFacility(hotelId, facilityId)]
                                  else old(db.hotelFacilities)
    ensures NoDuplicates(old(db.hotelFacilities)) ==> NoDuplicates(db.hotelFacilities)
  {
    HotelRepository.ExistsIffFound(db.hotels, hotelId);
    if !HotelRepository.Exists(db.hotels, hotelId) {
      return Failure(HotelNotFound);
    }
    // FacilityRepository.ExistsAsync, over a keyed table
    if facilityId !in db.facilities {
      return Failure(FacilityNotFound);
    }
    var link := HotelFacility(hotelId, facilityId);
    if link in db.hotelFacilities {
      return Success(false);
    }
    if NoDuplicates(db.hotelFacilities) {
      AppendFreshKeepsNoDuplicates(db.hotelFacilities, link);
    }
    db.hotelFacilities := db.hotelFacilities + [link];
    return Success(true);
  }

  /** RemoveFacilityFromHotelAsync: `false` and no write when the pair is
      absent; otherwise its first row is removed. */
  method RemoveFacilityFromHotel(db: Database, hotelId: int, facilityId: int) returns (removed: bool)
    requires db.Valid()
    modifies db`hotelFacilities
    ensures db.Valid()
    ensures removed <==> HotelFacility(hotelId, facilityId) in old(db.hotelFacilities)
    ensures db.hotelFacilities == RemoveFirst(old(db.hotelFacilities), HotelFacility(hotelId, facilityId))
    ensures NoDuplicates(old(db.hotelFacilities)) ==> NoDuplicates(db.hotelFacilities)
  {
    var link := HotelFacility(hotelId, facilityId);
    if link !in db.hotelFacilities {
      return false;
    }
    var i := FirstOccurrence(db.hotelFacilities, link);
    if NoDuplicates(db.hotelFacilities) {
      RemoveFirstKeepsNoDuplicates(db.hotelFacilities, link);
    }
    db.hotelFacilities := db.hotelFacilities[..i] + db.hotelFacilities[i + 1..];
    return true;
  }

  /** GetHotelFacilitiesAsync: the facility of every link of the hotel, in
      link order.  In a keyed Facilities table a facility is listed exactly
      when it exists and is linked to the hotel. */
  function HotelFacilities(links: seq<HotelFacility>, facilities: map<int, Facility>, hotelId: int)
    : (r: seq<Facility>)
    requires forall k :: k in facilities ==> facilities[k].id == k
    ensures |r| <= |links|
    ensures forall f :: f in r <==> && f.id in facilities && facilities[f.id] == f
                                    && HotelFacility(hotelId, f.id) in links
  {
    if links == [] then []
    else
      var rest := HotelFacilities(links[1..], facilities, hotelId);
      assert forall l :: l in links <==> l == links[0] || l in links[1..];
      var l := links[0];
      if l.hotelId == hotelId && l.facilityId in facilities then [facilities[l.facilityId]] + rest else rest
  }

  /** Adding a pair and then removing it leaves the link table as it was. */
  lemma AddThenRemoveFacilityRestores(links: seq<HotelFacility>, hotelId: int, facilityId: int)
    requires HotelFacility(hotelId, facilityId) !in links
    ensures RemoveFirst(links + [HotelFacility(hotelId, facilityId)], HotelFacility(hotelId, facilityId)) == links
  {
    AddThenRemoveRestores(links, HotelFacility(hotelId, facilityId));
  }
}
