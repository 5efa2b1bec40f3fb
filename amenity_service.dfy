/** AmenityService: creating and partially updating an amenity, and the
    room-amenity link table with its add, remove and join. */
module AmenityService {
  import opened Common
  import opened Entities
  import opened Data
  import opened LinkTable
  import RoomRepository

  /** The two `ArgumentException`s of AddAmenityToRoomAsync. */
  datatype LinkError = RoomNotFound | AmenityNotFound

  datatype CreateAmenityDto = CreateAmenityDto(
    name: string,
    description: Option<string>,
    icon: string)

  /** Every field optional: `None` is a null in the request. */
  datatype UpdateAmenityDto = UpdateAmenityDto(
    name: Option<string>,
    description: Option<string>,
    icon: Option<string>)

  /** CreateAmenityAsync: the request's fields under a new id, stamped by the
      repository. */
  method CreateAmenity(db: Database, dto: CreateAmenityDto, now: Instant) returns (created: Amenity)
    requires db.Valid()
    modifies db`amenities, db`nextAmenityId
    ensures db.Valid()
    ensures created == Amenity(old(db.nextAmenityId), dto.name, dto.description, dto.icon, now)
    ensures created.id > 0 && created.id !in old(db.amenities)
    ensures db.amenities == old(db.amenities)[created.id := created]
  {
    var amenity := Amenity(0, dto.name, dto.description, dto.icon, 0);
    created := amenity.(id := db.nextAmenityId, createdAt := now);
    db.amenities := db.amenities[created.id := created];
    db.nextAmenityId := db.nextAmenityId + 1;
  }

  /** The field-by-field patch of UpdateAmenityAsync: each string replaces
      its field only when neither null nor empty. */
  function PatchAmenity(a: Amenity, dto: UpdateAmenityDto): (p: Amenity)
    ensures p.id == a.id && p.createdAt == a.createdAt
    ensures IsNullOrEmpty(dto.name) ==> p.name == a.name
    ensures !IsNullOrEmpty(dto.name) ==> p.name == dto.name.value
    ensures IsNullOrEmpty(dto.description) ==> p.description == a.description
    ensures !IsNullOrEmpty(dto.description) ==> p.description == dto.description
    ensures IsNullOrEmpty(dto.icon) ==> p.icon == a.icon
    ensures !IsNullOrEmpty(dto.icon) ==> p.icon == dto.icon.value
  {
    a.(name := PickString(dto.name, a.name),
       description := PickNullableString(dto.description, a.description),
       icon := PickString(dto.icon, a.icon))
  }

  /** Applying the same update twice gives the amenity of applying it once. */
  lemma PatchAmenityIdempotent(a: Amenity, dto: UpdateAmenityDto)
    ensures PatchAmenity(PatchAmenity(a, dto), dto) == PatchAmenity(a, dto)
  {
  }

  /** UpdateAmenityAsync: `None` and no write for an unknown id; otherwise
      the patched amenity is stored (the repository stamps nothing). */
  method UpdateAmenity(db: Database, id: int, dto: UpdateAmenityDto) returns (r: Option<Amenity>)
    requires db.Valid()
    modifies db`amenities
    ensures db.Valid()
    ensures r.None? <==> id !in old(db.amenities)
    ensures r.None? ==> db.amenities == old(db.amenities)
    ensures r.Some? ==> && r.value == PatchAmenity(old(db.amenities)[id], dto)
                        && db.amenities == old(db.amenities)[id := r.value]
  {
    if id !in db.amenities {
      return None;
    }
    var amenity := db.amenities[id];

    if !IsNullOrEmpty(dto.name) {
      amenity := amenity.(name := dto.name.value);
    }
    if !IsNullOrEmpty(dto.description) {
      amenity := amenity.(description := dto.description);
    }
    if !IsNullOrEmpty(dto.icon) {
      amenity := amenity.(icon := dto.icon.value);
    }
    assert amenity == PatchAmenity(db.amenities[id], dto);

    db.amenities := db.amenities[id := amenity];
    return Some(amenity);
  }

  /** AddAmenityToRoomAsync: the room is checked before the amenity; an
      existing pair gives `false`; otherwise the pair is appended. */
  method AddAmenityToRoom(db: Database, roomId: int, amenityId: int) returns (r: Result<bool, LinkError>)
    requires db.Valid()
    modifies db`roomAmenities
    ensures db.Valid()
    ensures r == Failure(RoomNotFound) <==> roomId !in db.rooms
    ensures r == Failure(AmenityNotFound) <==> roomId in db.rooms && amenityId !in db.amenities
    ensures r == Success(false) <==> && roomId in db.rooms && amenityId in db.amenities
                                     && RoomAmenity(roomId, amenityId) in old(db.roomAmenities)
    ensures r == Success(true) <==> && roomId in db.rooms && amenityId in db.amenities
                                    && RoomAmenity(roomId, amenityId) !in old(db.roomAmenities)
    ensures db.roomAmenities == if r == Success(true)
                                then old(db.roomAmenities) + [RoomAmenity(roomId, amenityId)]
                                else old(db.roomAmenities)
    ensures NoDuplicates(old(db.roomAmenities)) ==> NoDuplicates(db.roomAmenities)
  {
    RoomRepository.ExistsIffFound(db.rooms, roomId);
    if !RoomRepository.Exists(db.rooms, roomId) {
      return Failure(RoomNotFound);
    }
    // AmenityRepository.ExistsAsync, over a keyed table
    if amenityId !in db.amenities {
      return Failure(AmenityNotFound);
    }
    var link := RoomAmenity(roomId, amenityId);
    if link in db.roomAmenities {
      return Success(false);
    }
    if NoDuplicates(db.roomAmenities) {
      AppendFreshKeepsNoDuplicates(db.roomAmenities, link);
    }
    db.roomAmenities := db.roomAmenities + [link];
    return Success(true);
  }

  /** RemoveAmenityFromRoomAsync: `false` and no write when the pair is
      absent; otherwise its first row is removed. */
  method RemoveAmenityFromRoom(db: Database, roomId: int, amenityId: int) returns (removed: bool)
    requires db.Valid()
    modifies db`roomAmenities
    ensures db.Valid()
    ensures removed <==> RoomAmenity(roomId, amenityId) in old(db.roomAmenities)
    ensures db.roomAmenities == RemoveFirst(old(db.roomAmenities), RoomAmenity(roomId, amenityId))
    ensures NoDuplicates(old(db.roomAmenities)) ==> NoDuplicates(db.roomAmenities)
  {
    var link := RoomAmenity(roomId, amenityId);
    if link !in db.roomAmenities {
      return false;
    }
    var i := FirstOccurrence(db.roomAmenities, link);
    if NoDuplicates(db.roomAmenities) {
      RemoveFirstKeepsNoDuplicates(db.roomAmenities, link);
    }
    db.roomAmenities := db.roomAmenities[..i] + db.roomAmenities[i + 1..];
    return true;
  }

  /** GetRoomAmenitiesAsync: the amenity of every link of the room, in link
      order.  In a keyed Amenities table an amenity is listed exactly when it
      exists and is linked to the room. */
  function RoomAmenities(links: seq<RoomAmenity>, amenities: map<int, Amenity>, roomId: int)
    : (r: seq<Amenity>)
    requires forall k :: k in amenities ==> amenities[k].id == k
    ensures |r| <= |links|
    ensures forall a :: a in r <==> && a.id in amenities && amenities[a.id] == a
                                    && RoomAmenity(roomId, a.id) in links
  {
    if links == [] then []
    else
      var rest := RoomAmenities(links[1..], amenities, roomId);
      assert forall l :: l in links <==> l == links[0] || l in links[1..];
      var l := links[0];
      if l.roomId == roomId && l.amenityId in amenities then [amenities[l.amenityId]] + rest else rest
  }

  /** Adding a pair and then removing it leaves the link table as it was. */
  lemma AddThenRemoveAmenityRestores(links: seq<RoomAmenity>, roomId: int, amenityId: int)
    requires RoomAmenity(roomId, amenityId) !in links
    ensures RemoveFirst(links + [RoomAmenity(roomId, amenityId)], RoomAmenity(roomId, amenityId)) == links
  {
    AddThenRemoveRestores(links, RoomAmenity(roomId, amenityId));
  }
}
