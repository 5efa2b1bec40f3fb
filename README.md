# HotelBooking core in Dafny

This project models the core of HotelBooking, an ASP.NET Core web API for
hotels, rooms and bookings, and proves properties of that model. The
modelled core has these parts:

* **Database.** The EF Core database is one `Data.Database` object. It
  holds keyed tables for hotels, rooms, bookings, facilities and amenities.
  It holds ordered tables for API keys and users, and the two link tables
  (hotel-facility, room-amenity). Each table has its own id counter.
* **Repositories.** The repositories become functions (queries) and methods
  (writes that stamp `CreatedAt`/`UpdatedAt`):
  * hotel search with filters, name ordering and paging;
  * the room-availability overlap test;
  * the available-rooms query.
* **Services.** The services become methods over the database:
  * booking create, update, cancel and delete;
  * hotel, room, facility and amenity create and partial update;
  * link and unlink of facilities and amenities;
  * API-key issue and update;
  * register, log in and check a user.

  Each method is proved against a specification function: a rejection
  function, an outcome function or a patch function.
* **Authentication.** The API-key authentication handler is an
  `Authenticate` function, plus a method that stamps `LastUsedAt`.
* **Permissions.** The role-to-permission table.
* **Validators.** The five FluentValidation request validators return the
  list of failing rules.

The proved properties include the following:

* **No double booking.** Two live bookings of one room never collide under
  the repository's overlap test. Create, update, cancel and delete all keep
  this invariant.
* **Failure order.** The exact order in which `CreateBookingAsync` and
  `UpdateBookingAsync` report failures.
* **Paging.** The page returned by `GetPagedAsync` is a window of the
  name-sorted matches. Its total counts every match, whatever page is
  asked for.
* **Patches.** Every partial update is idempotent.
* **Link tables.** They never hold a duplicate pair, and adding then
  removing a pair restores the table.
* **API keys.** An issued key authenticates until it expires, and a
  deactivated key fails.
* **Logins.** `ValidateUserAsync` agrees with `LoginAsync`.
* **Permissions.** The role table is nested, and only Admin may delete.
* **Validators.** Each validator accepts exactly the requests its rules
  allow.

The caller supplies time, randomness and hashing as parameters:

* "now" and "today" are an `Instant` and a `Day`;
* the Base64 text of the 32 random bytes is a string;
* SHA-256 + Base64 is a function `string -> string`.

## Model

| member | source | states |
|---|---|---|
| Data.Database.constructor | HotelBooking/Data/HotelBookingDbContext.cs:13-75 | A fresh database has every table empty and meets the database's constraints: each row is stored under its own id, ids lie below the id counters, and usernames and emails are unique |
| Entities.ParseStatus | HotelBooking/Models/Entities/Booking.cs:14 | Reading a status string gives a status whose stored name is that string; it is `Cancelled` exactly for "Cancelled" |
| Entities.StatusNameInjective | HotelBooking/Models/Entities/Booking.cs:14 | Distinct statuses are stored as distinct strings, so comparing statuses is comparing the column's text |
| Common.FirstIndex | HotelBooking/Services/AuthService.cs:34-35 | `FirstOrDefault`: the index found satisfies the predicate and no earlier row does; `None` only when no row does |
| Common.Where | HotelBooking/Repositories/HotelRepository.cs:32-50 | LINQ `Where` keeps exactly the rows satisfying the predicate, never more of any row than the input holds |
| Common.WhereSingleton | HotelBooking/Repositories/HotelRepository.cs:32-50 | One row is kept exactly when it satisfies the predicate |
| Common.WhereAppend | HotelBooking/Repositories/HotelRepository.cs:32-50 | Filtering a concatenation is the concatenation of the filtered parts, so the kept rows stay in input order |
| Common.WhereCons | HotelBooking/Repositories/HotelRepository.cs:32-50 | The first row is kept ahead of the filtered rest exactly when it satisfies the predicate |
| Common.WhereKeepsMultiplicity | HotelBooking/Repositories/HotelRepository.cs:32-50 | A value satisfying the predicate is kept as many times as it occurs; any other value is dropped |
| Paging.PagedResult.TotalPages | HotelBooking/Models/DTO/PagedResult.cs:9 | `Ceiling(Total / PageSize)`: the least page count whose pages hold every item; 0 pages for 0 items |
| Paging.TotalPagesIsLeast | HotelBooking/Models/DTO/PagedResult.cs:9 | No smaller count of pages holds all the items |
| Paging.SkipTakeIsWindow | HotelBooking/Repositories/HotelRepository.cs:57-58 | `Skip` then `Take` cuts one contiguous window out of the rows |
| Paging.Skip | HotelBooking/Repositories/HotelRepository.cs:57 | definition: SQLite OFFSET, which skips nothing for a negative offset and everything past the end; its window is fixed by `SkipTakeIsWindow` |
| Paging.Take | HotelBooking/Repositories/HotelRepository.cs:58 | definition: SQLite LIMIT, where a negative limit means no limit; its window is fixed by `SkipTakeIsWindow` |
| Paging.RowInItsWindow | HotelBooking/Repositories/HotelRepository.cs:57-58 | Row `i` lies in the window of page `i / pageSize + 1` |
| LinkTable.RemoveFirst | HotelBooking/Services/FacilityService.cs:99-110 | Removing a link row takes out exactly one copy when present and changes nothing otherwise |
| LinkTable.AppendFreshKeepsNoDuplicates | HotelBooking/Services/FacilityService.cs:74-97 | Appending a pair not yet in a duplicate-free link table keeps it duplicate-free |
| LinkTable.RemoveFirstKeepsNoDuplicates | HotelBooking/Services/FacilityService.cs:99-110 | Removing a pair from a duplicate-free link table keeps it duplicate-free and removes exactly that pair |
| LinkTable.AddThenRemoveRestores | HotelBooking/Services/FacilityService.cs:74-110 | Adding a fresh pair and then removing it restores the table |
| BookingRepository.CollidesIffHalfOpen | HotelBooking/Repositories/BookingRepository.cs:86-90 | For stays of at least one night, the three-clause overlap test is exactly half-open interval intersection |
| BookingRepository.IsRoomAvailable | HotelBooking/Repositories/BookingRepository.cs:83-98 | definition: `IsRoomAvailableAsync` is true exactly when no booking of the room, not cancelled and not the excluded one, collides with the request by the three clauses; `NonBlockingRowIsIgnored`, `AvailableMeansNoConflict` and `CollidesIffHalfOpen` give its meaning |
| BookingRepository.HalfOpenImpliesCollides | HotelBooking/Repositories/BookingRepository.cs:86-90 | Every half-open intersection is caught by the overlap test |
| BookingRepository.EmptyStayAtRequestEndCollides | HotelBooking/Repositories/BookingRepository.cs:89 | A stored zero-night stay on the requested check-out day still blocks the request, though it intersects nothing |
| BookingRepository.BackToBackNeverBlocks | HotelBooking/Repositories/BookingRepository.cs:86-90 | A stay ending on the requested check-in day, or starting on the requested check-out day, does not block it |
| BookingRepository.NonBlockingRowIsIgnored | HotelBooking/Repositories/BookingRepository.cs:83-98 | A cancelled booking, one of another room, or the excluded booking never changes the availability answer |
| BookingRepository.GetById | HotelBooking/Repositories/BookingRepository.cs:43-49 | Finds the booking with that id, or null when there is none |
| BookingRepository.GetByRoomId | HotelBooking/Repositories/BookingRepository.cs:25-32 | Exactly the bookings of that room |
| BookingRepository.GetByGuestEmail | HotelBooking/Repositories/BookingRepository.cs:34-41 | Exactly the bookings under that guest email |
| BookingRepository.Create | HotelBooking/Repositories/BookingRepository.cs:51-57 | Stores the booking under a fresh positive id, stamped with `CreatedAt`, and changes no other row |
| BookingRepository.Update | HotelBooking/Repositories/BookingRepository.cs:59-65 | Stores the booking stamped with `UpdatedAt`, replacing only its own row |
| BookingRepository.Delete | HotelBooking/Repositories/BookingRepository.cs:67-76 | Returns true exactly when the id existed; that row alone is removed |
| RoomRepository.GetById | HotelBooking/Repositories/RoomRepository.cs:32-37 | Finds the room with that id, or null |
| RoomRepository.ExistsIffFound | HotelBooking/Repositories/RoomRepository.cs:66-69 | `ExistsAsync` agrees with `GetByIdAsync` |
| RoomRepository.Exists | HotelBooking/Repositories/RoomRepository.cs:66-69 | definition: `ExistsAsync`, some row carries the id; `ExistsIffFound` ties it to `GetByIdAsync` |
| RoomRepository.GetByHotelId | HotelBooking/Repositories/RoomRepository.cs:24-30 | Exactly the rooms of that hotel |
| RoomRepository.GetAvailableRooms | HotelBooking/Repositories/RoomRepository.cs:71-88 | Only rooms of the hotel flagged available, unchanged |
| RoomRepository.BookedRoomIds | HotelBooking/Repositories/RoomRepository.cs:73-80 | definition: the rooms of every live booking that collides with the stay by the same three clauses as `IsRoomAvailableAsync`; `AvailableRoomsAgreeWithIsRoomAvailable` proves the two queries agree |
| RoomRepository.AvailableRoomsAgreeWithIsRoomAvailable | HotelBooking/Repositories/RoomRepository.cs:71-88 | A room is listed exactly when it belongs to the hotel, is flagged available, and the booking repository's availability check accepts the dates for it |
| RoomRepository.AvailableRoomsWithinHotel | HotelBooking/Repositories/RoomRepository.cs:84 | The available rooms are among the hotel's rooms |
| RoomRepository.Create | HotelBooking/Repositories/RoomRepository.cs:39-45 | Stores the room under a fresh positive id, stamped with `CreatedAt` |
| RoomRepository.Update | HotelBooking/Repositories/RoomRepository.cs:47-53 | Stores the room stamped with `UpdatedAt`, replacing only its own row |
| RoomRepository.Delete | HotelBooking/Repositories/RoomRepository.cs:55-64 | Returns true exactly when the id existed; that row alone is removed |
| HotelRepository.Filter | HotelBooking/Repositories/HotelRepository.cs:30-50 | Keeps exactly the hotels that pass every given filter: search text in the name or the description, city, country and minimum stars |
| HotelRepository.MatchesQuery | HotelBooking/Repositories/HotelRepository.cs:30-50 | definition: the four filter clauses as one row predicate, reading only the filter fields of the query; `Filter` states what it keeps |
| HotelRepository.EmptyQueryKeepsAll | HotelBooking/Repositories/HotelRepository.cs:30-50 | With no filter given, every hotel is kept |
| HotelRepository.NameLeTotal | HotelBooking/Repositories/HotelRepository.cs:56 | The ordinal name order is total |
| HotelRepository.NameLeTransitive | HotelBooking/Repositories/HotelRepository.cs:56 | The ordinal name order is transitive |
| HotelRepository.NameLeAntisymmetric | HotelBooking/Repositories/HotelRepository.cs:56 | The ordinal name order is antisymmetric |
| HotelRepository.InsertByNameSorted | HotelBooking/Repositories/HotelRepository.cs:56 | Inserting into a name-sorted list keeps it sorted |
| HotelRepository.InsertByNamePermutes | HotelBooking/Repositories/HotelRepository.cs:56 | Inserting adds exactly that hotel |
| HotelRepository.SortByName | HotelBooking/Repositories/HotelRepository.cs:56 | `OrderBy(Name)` yields a name-sorted permutation of its input |
| HotelRepository.TableRows | HotelBooking/Repositories/HotelRepository.cs:27 | The table's rows, each hotel once |
| HotelRepository.CountIsMatchingIds | HotelBooking/Repositories/HotelRepository.cs:52 | The count of filtered rows is the number of hotels matching the query |
| HotelRepository.MatchingIdsOfTable | HotelBooking/Repositories/HotelRepository.cs:30-52 | The ids whose rows match the query are exactly the matching hotels of the table |
| HotelRepository.OrderedMatches | HotelBooking/Repositories/HotelRepository.cs:30-56 | The matching hotels, sorted by name, as a permutation of the filtered rows |
| HotelRepository.GetPaged | HotelBooking/Repositories/HotelRepository.cs:25-68 | The result echoes the page and page size and totals every matching hotel |
| HotelRepository.PageIsWindow | HotelBooking/Repositories/HotelRepository.cs:54-59 | The items are the window at offset `(Page-1)*PageSize`, of at most `PageSize` rows, of the sorted matches |
| HotelRepository.PageItems | HotelBooking/Repositories/HotelRepository.cs:54-63 | Every item is a matching hotel; the items are sorted by name and no more than the page size |
| HotelRepository.TotalIndependentOfPage | HotelBooking/Repositories/HotelRepository.cs:52 | The total does not depend on the page or the page size asked for |
| HotelRepository.MatchOnItsPage | HotelBooking/Repositories/HotelRepository.cs:54-59 | Every matching hotel appears on some page |
| HotelRepository.GetById | HotelBooking/Repositories/HotelRepository.cs:70-75 | Finds the hotel with that id, or null |
| HotelRepository.ExistsIffFound | HotelBooking/Repositories/HotelRepository.cs:104-107 | `ExistsAsync` agrees with `GetByIdAsync` |
| HotelRepository.Exists | HotelBooking/Repositories/HotelRepository.cs:104-107 | definition: `ExistsAsync`, some row carries the id; `ExistsIffFound` ties it to `GetByIdAsync` |
| HotelRepository.Create | HotelBooking/Repositories/HotelRepository.cs:77-83 | Stores the hotel under a fresh positive id, stamped with `CreatedAt`, and it can then be found |
| HotelRepository.Update | HotelBooking/Repositories/HotelRepository.cs:85-91 | Stores the hotel stamped with `UpdatedAt`, replacing only its own row |
| HotelRepository.Delete | HotelBooking/Repositories/HotelRepository.cs:93-102 | Returns true exactly when the id existed; afterwards it cannot be found |
| BookingService.StoreRowPreservesNoDoubleBooking | HotelBooking/Repositories/BookingRepository.cs:83-98 | Storing a booking that collides with no other live booking of its room keeps the table free of double bookings |
| BookingService.AvailableMeansNoConflict | HotelBooking/Repositories/BookingRepository.cs:83-98 | An accepted availability check means the stay conflicts with no booking other than the excluded one |
| BookingService.CreateRejection | HotelBooking/Services/BookingService.cs:46-70 | Each error is reported exactly when every earlier check passed and its own fails, in the order: room missing, room flagged unavailable, dates out of order, check-in in the past, dates taken, too many guests (with the room's capacity); the request is accepted exactly when all pass |
| BookingService.Kind | HotelBooking/Services/BookingService.cs:50-122 | definition: the exception class each refusal is thrown as, `ArgumentException` or `InvalidOperationException`, one case per `throw` |
| BookingService.StayPrice | HotelBooking/Services/BookingService.cs:72-73 | definition: the nightly rate times the number of nights; `CreateBooking` and `UpdateWithDatesSucceeds` store it as the total price |
| BookingService.AcceptedCreateKeepsInvariants | HotelBooking/Services/BookingService.cs:46-79 | An accepted booking keeps the table free of double bookings and of stays with check-out not after check-in |
| BookingService.CreateBooking | HotelBooking/Services/BookingService.cs:46-81 | Fails exactly as `CreateRejection` says, with no write; otherwise stores a Confirmed booking priced at nightly rate × nights, and keeps the invariants |
| BookingService.PatchBooking | HotelBooking/Services/BookingService.cs:92-101 | Each non-empty string and each given number replaces its field; nothing else changes |
| BookingService.PatchBookingIdempotent | HotelBooking/Services/BookingService.cs:92-101 | Applying the same update twice equals applying it once |
| BookingService.EmptyPatchIsIdentity | HotelBooking/Services/BookingService.cs:92-101 | An update with every field null changes nothing |
| BookingService.RequestedStay | HotelBooking/Services/BookingService.cs:105-106 | A missing new date falls back to the stored one |
| BookingService.UpdateOutcome | HotelBooking/Services/BookingService.cs:83-133 | Null for an unknown id; refused for a cancelled booking. Without new dates the patch always succeeds. With new dates: out-of-order dates fail first, then a missing room, then taken dates; otherwise the new dates are stored and the stay repriced |
| BookingService.UpdateWithDatesSucceeds | HotelBooking/Services/BookingService.cs:103-129 | When all date checks pass, the update stores the new dates and price |
| BookingService.UpdateKeepsInvariants | HotelBooking/Services/BookingService.cs:83-133 | A successful update keeps the table free of double bookings |
| BookingService.ApplyDetails | HotelBooking/Services/BookingService.cs:92-101 | The field-by-field assignments compute `PatchBooking` |
| BookingService.UpdateBooking | HotelBooking/Services/BookingService.cs:83-133 | Returns `UpdateOutcome`, writes only on success, and keeps the invariants |
| BookingService.CancelledStore | HotelBooking/Services/BookingService.cs:140-152 | Cancel marks the booking Cancelled and stamps it, leaving every other row and field alone; an already cancelled booking is left untouched |
| BookingService.CancelIdempotent | HotelBooking/Services/BookingService.cs:146-147 | Cancelling twice equals cancelling once |
| BookingService.CancelKeepsInvariants | HotelBooking/Services/BookingService.cs:140-152 | Cancelling keeps the table free of double bookings |
| BookingService.CancelBooking | HotelBooking/Services/BookingService.cs:140-152 | True exactly when the booking exists; the store becomes `CancelledStore` |
| BookingService.DeleteKeepsInvariants | HotelBooking/Services/BookingService.cs:135-138 | Deleting keeps the table free of double bookings |
| BookingService.DeleteBooking | HotelBooking/Services/BookingService.cs:135-138 | True exactly when the booking existed; only that row is removed |
| HotelService.PatchHotel | HotelBooking/Services/HotelService.cs:45-56 | Each non-empty string and a given star rating replace their fields; nothing else changes |
| HotelService.PatchHotelIdempotent | HotelBooking/Services/HotelService.cs:45-56 | Applying the same update twice equals applying it once |
| HotelService.EmptyHotelPatchIsIdentity | HotelBooking/Services/HotelService.cs:45-56 | An update with every field null changes nothing |
| HotelService.DescriptionNeverCleared | HotelBooking/Services/HotelService.cs:53-54 | An update can never clear a description: an empty string is ignored |
| HotelService.HotelFromRequest | HotelBooking/Services/HotelService.cs:32-37 | The new hotel carries the request's fields |
| HotelService.CreateHotel | HotelBooking/Services/HotelService.cs:32-37 | Stores the request as a new hotel under a fresh id, stamped with `CreatedAt` |
| HotelService.UpdateHotel | HotelBooking/Services/HotelService.cs:39-60 | Null with no write for an unknown id; otherwise stores the patched hotel stamped with `UpdatedAt` |
| RoomService.RoomFromRequest | HotelBooking/Services/RoomService.cs:51 | The new room carries the request's fields and is available |
| RoomService.CreateRoom | HotelBooking/Services/RoomService.cs:46-54 | Refused with no write exactly when the hotel does not exist; otherwise stores the new room under a fresh id |
| RoomService.PatchRoom | HotelBooking/Services/RoomService.cs:62-73 | Each non-empty string and each given value replaces its field; the hotel never changes |
| RoomService.PatchRoomIdempotent | HotelBooking/Services/RoomService.cs:62-73 | Applying the same update twice equals applying it once |
| RoomService.EmptyRoomPatchIsIdentity | HotelBooking/Services/RoomService.cs:62-73 | An update with every field null changes nothing |
| RoomService.UpdateKeepsHotelRoomLists | HotelBooking/Services/RoomService.cs:56-77 | An update never moves a room to another hotel |
| RoomService.UpdateRoom | HotelBooking/Services/RoomService.cs:56-77 | Null with no write for an unknown id; otherwise stores the patched room stamped with `UpdatedAt` |
| FacilityService.CreateFacility | HotelBooking/Services/FacilityService.cs:45-50 | Stores the request as a new facility under a fresh id |
| FacilityService.PatchFacility | HotelBooking/Services/FacilityService.cs:58-63 | Each non-empty string replaces its field; nothing else changes |
| FacilityService.PatchFacilityIdempotent | HotelBooking/Services/FacilityService.cs:58-63 | Applying the same update twice equals applying it once |
| FacilityService.UpdateFacility | HotelBooking/Services/FacilityService.cs:52-67 | Null with no write for an unknown id; otherwise stores the patched facility |
| FacilityService.AddFacilityToHotel | HotelBooking/Services/FacilityService.cs:74-97 | Hotel checked before facility; false for an existing pair; otherwise appends the pair; never creates a duplicate |
| FacilityService.RemoveFacilityFromHotel | HotelBooking/Services/FacilityService.cs:99-110 | True exactly when the pair was linked; removes it and nothing else |
| FacilityService.HotelFacilities | HotelBooking/Services/FacilityService.cs:112-121 | Lists a facility exactly when it exists and is linked to the hotel |
| FacilityService.AddThenRemoveFacilityRestores | HotelBooking/Services/FacilityService.cs:74-110 | Linking then unlinking a new pair restores the link table |
| AmenityService.CreateAmenity | HotelBooking/Services/AmenityService.cs:45-50 | Stores the request as a new amenity under a fresh id |
| AmenityService.PatchAmenity | HotelBooking/Services/AmenityService.cs:58-63 | Each non-empty string replaces its field; nothing else changes |
| AmenityService.PatchAmenityIdempotent | HotelBooking/Services/AmenityService.cs:58-63 | Applying the same update twice equals applying it once |
| AmenityService.UpdateAmenity | HotelBooking/Services/AmenityService.cs:52-67 | Null with no write for an unknown id; otherwise stores the patched amenity |
| AmenityService.AddAmenityToRoom | HotelBooking/Services/AmenityService.cs:74-97 | Room checked before amenity; false for an existing pair; otherwise appends the pair; never creates a duplicate |
| AmenityService.RemoveAmenityFromRoom | HotelBooking/Services/AmenityService.cs:99-110 | True exactly when the pair was linked; removes it and nothing else |
| AmenityService.RoomAmenities | HotelBooking/Services/AmenityService.cs:112-121 | Lists an amenity exactly when it exists and is linked to the room |
| AmenityService.AddThenRemoveAmenityRestores | HotelBooking/Services/AmenityService.cs:74-110 | Linking then unlinking a new pair restores the link table |
| ApiKeyService.ReplaceChar | HotelBooking/Services/ApiKeyService.cs:81 | `Replace` swaps every occurrence of one character and keeps the rest |
| ApiKeyService.TrimEnd | HotelBooking/Services/ApiKeyService.cs:81 | `TrimEnd` removes only trailing copies of the character, all of them |
| ApiKeyService.UrlSafeText | HotelBooking/Services/ApiKeyService.cs:81 | The two `Replace` calls turn every '+' into '-' and every '/' into '_', position by position |
| ApiKeyService.KeyBody | HotelBooking/Services/ApiKeyService.cs:81 | The key body is the URL-safe text position by position, and only '=' padding is cut from its end |
| ApiKeyService.GenerateApiKey | HotelBooking/Services/ApiKeyService.cs:76-83 | A key is "hb_" followed by each character of the Base64 text in the URL-safe alphabet (`IsKeyBody`), stopping exactly before the trailing '=' padding |
| ApiKeyService.GeneratedKeyLength | HotelBooking/Services/ApiKeyService.cs:78-82 | The Base64 text of 32 bytes yields a 46-character key |
| ApiKeyService.CreateApiKey | HotelBooking/Services/ApiKeyService.cs:38-52 | Appends an active key with the generated text, the request's fields and `CreatedAt` |
| ApiKeyService.ApiKeyIndex | HotelBooking/Repositories/ApiKeyRepository.cs:22-25 | Finds the key row with that id, or reports none |
| ApiKeyService.PatchApiKey | HotelBooking/Services/ApiKeyService.cs:60-65 | Non-empty name and description replace their fields; active flag and expiry are always taken from the request |
| ApiKeyService.PatchApiKeyIdempotent | HotelBooking/Services/ApiKeyService.cs:60-65 | Applying the same update twice equals applying it once |
| ApiKeyService.PatchIgnoresReadOnlyFields | HotelBooking/Services/ApiKeyService.cs:60-65 | The request's id and timestamps are ignored |
| ApiKeyService.UpdateApiKey | HotelBooking/Services/ApiKeyService.cs:54-69 | Null with no write for an unknown id; otherwise stores the patched key in place |
| ApiKeyAuthentication.Presented | HotelBooking/Auth/ApiKeyAuthenticationHandler.cs:30-35 | The first value of the `X-API-KEY` header, if any |
| ApiKeyAuthentication.LookUp | HotelBooking/Auth/ApiKeyAuthenticationHandler.cs:41-42 | The first key row with that text, or none |
| ApiKeyAuthentication.Authenticate | HotelBooking/Auth/ApiKeyAuthenticationHandler.cs:28-78 | No result for a missing or blank key; then invalid, inactive and expired fail in that order; otherwise success with the key's id and name as claims |
| ApiKeyAuthentication.AuthenticatedRow | HotelBooking/Auth/ApiKeyAuthenticationHandler.cs:41-68 | A success names the row holding the presented key |
| ApiKeyAuthentication.HandleAuthenticate | HotelBooking/Auth/ApiKeyAuthenticationHandler.cs:28-78 | Returns `Authenticate`; only a success writes, stamping `LastUsedAt` on that key alone |
| ApiKeyAuthentication.StampIsInvisible | HotelBooking/Auth/ApiKeyAuthenticationHandler.cs:62-64 | Stamping `LastUsedAt` never changes a later authentication |
| ApiKeyAuthentication.EarlierStillAuthenticates | HotelBooking/Auth/ApiKeyAuthenticationHandler.cs:56-60 | A key accepted now was accepted at every earlier time |
| ApiKeyAuthentication.IssuedKeyAuthenticates | HotelBooking/Services/ApiKeyService.cs:38-52 | A freshly issued key authenticates through its expiry instant and fails as expired afterwards, provided no older row has the same key string |
| ApiKeyAuthentication.DeactivatedKeyFails | HotelBooking/Services/ApiKeyService.cs:64 | After an update sets `IsActive` false, presenting the key fails as inactive, provided the key is not blank and no older row has the same key string |
| AuthService.VerifyAcceptsItsOwnPassword | HotelBooking/Services/AuthService.cs:118-122 | A stored hash always accepts the password it was made from |
| AuthService.VerifyAcceptsExactlyItsPassword | HotelBooking/Services/AuthService.cs:111-122 | Under a collision-free hash, a stored hash accepts exactly its own password |
| AuthService.VerifyPassword | HotelBooking/Services/AuthService.cs:118-122 | definition: hash the candidate and compare the text; `VerifyAcceptsItsOwnPassword` and `VerifyAcceptsExactlyItsPassword` give its meaning |
| AuthService.RegisterRejection | HotelBooking/Services/AuthService.cs:67-75 | Register is refused for a taken username, otherwise for a taken email, otherwise accepted |
| AuthService.AppendFreshKeepsUniqueLogins | HotelBooking/Services/AuthService.cs:67-86 | Adding a user with new username and email keeps both unique |
| AuthService.Register | HotelBooking/Services/AuthService.cs:65-101 | Fails as `RegisterRejection` says with no write; otherwise appends an active user with the hashed password |
| AuthService.LoginIndex | HotelBooking/Services/AuthService.cs:34-35 | The user found answers to the name; a user whose username is the name is taken over one whose email is, as SQLite's plan over the two unique indexes does; none only when no user answers to it |
| AuthService.LoginOutcome | HotelBooking/Services/AuthService.cs:32-46 | Unknown name and wrong password fail alike; an inactive account fails only with the right password; otherwise success |
| AuthService.Login | HotelBooking/Services/AuthService.cs:32-63 | Fails as `LoginOutcome` says with no write; on success stamps that user's `LastLoginAt` only |
| AuthService.ValidateAgreesWithLogin | HotelBooking/Services/AuthService.cs:103-109 | `ValidateUserAsync` is true exactly when `LoginAsync` would succeed |
| AuthService.ValidateUser | HotelBooking/Services/AuthService.cs:103-109 | definition: the first user matching by username or email exists, is active and accepts the password; `ValidateAgreesWithLogin` proves it agrees with `LoginAsync` |
| AuthService.RegisteredUserLogsIn | HotelBooking/Services/AuthService.cs:65-101 | Every user RegisterAsync accepts (no older user has the username) then logs in with that username and password |
| AuthService.UsernameShadowsEmail | HotelBooking/Services/AuthService.cs:32-46 | Register accepts a username equal to an older user's email; the new user logs in, and the older user, who logged in with that email before, no longer can |
| Permissions.Granted | HotelBooking/Auth/Permissions.cs:20-25 | A role's permissions are among the twelve; an unknown role has none |
| Permissions.TwelvePermissions | HotelBooking/Auth/Permissions.cs:5-18 | The twelve permission names are distinct, three of them deletes |
| Permissions.ThreeRoles | HotelBooking/Auth/Permissions.cs:20-25 | The table has exactly the roles Admin, Manager and User |
| Permissions.AdminHoldsAll | HotelBooking/Auth/Permissions.cs:22 | Admin holds every permission |
| Permissions.ManagerHoldsAllButDelete | HotelBooking/Auth/Permissions.cs:23 | Manager holds everything except the three deletes |
| Permissions.UserHoldsFour | HotelBooking/Auth/Permissions.cs:24 | User reads hotels, rooms and bookings and creates bookings |
| Permissions.RolesAreNested | HotelBooking/Auth/Permissions.cs:20-25 | User's permissions lie within Manager's, which lie within Admin's |
| Permissions.OnlyAdminDeletes | HotelBooking/Auth/Permissions.cs:20-25 | Any role holding a delete permission is Admin |
| Validators.Check | HotelBooking/Validators/CreateBookingDtoValidator.cs:10-31 | A rule contributes its failure exactly when it fails, at most once |
| Validators.Message | HotelBooking/Validators/CreateBookingDtoValidator.cs:11-31 | definition: the `WithMessage` text of each rule, copied from the five validators |
| Validators.IndexOf | HotelBooking/Validators/CreateBookingDtoValidator.cs:19 | First position of a character, or -1 |
| Validators.LastIndexOf | HotelBooking/Validators/CreateBookingDtoValidator.cs:19 | Last position of a character, or -1 |
| Validators.EmailAddressHasOneInnerAt | HotelBooking/Validators/CreateBookingDtoValidator.cs:19 | The email check accepts exactly text with one '@', neither first nor last |
| Validators.IsEmailAddress | HotelBooking/Validators/CreateBookingDtoValidator.cs:19 | definition: the first '@' is not at the start, not at the end, and is also the last '@'; `EmailAddressHasOneInnerAt` restates it without the searches |
| Validators.ValidateBooking | HotelBooking/Validators/CreateBookingDtoValidator.cs:8-37 | No failures exactly when every rule of the booking validator holds |
| Validators.BookingRoomIdRule | HotelBooking/Validators/CreateBookingDtoValidator.cs:10-11 | The room-id failure appears exactly when the id is not positive |
| Validators.BookingGuestNameRules | HotelBooking/Validators/CreateBookingDtoValidator.cs:13-15 | Required exactly when blank; too long exactly beyond 200 characters |
| Validators.BookingGuestEmailRules | HotelBooking/Validators/CreateBookingDtoValidator.cs:17-20 | Required when blank, invalid when not an email address, too long beyond 200 |
| Validators.BookingCheckInRules | HotelBooking/Validators/CreateBookingDtoValidator.cs:22-24 | Required when the default date; past exactly when before today |
| Validators.BookingCheckOutRules | HotelBooking/Validators/CreateBookingDtoValidator.cs:26-28 | Required when the default date; refused exactly when not after check-in |
| Validators.BookingGuestsRule | HotelBooking/Validators/CreateBookingDtoValidator.cs:30-31 | Refused exactly when the guest count is not positive |
| Validators.ValidatedBookingPassesDateChecks | HotelBooking/Services/BookingService.cs:55-59 | A request the validator accepts never fails the service's date-order or past-date checks |
| Validators.ValidateHotel | HotelBooking/Validators/CreateHotelDtoValidator.cs:8-28 | No failures exactly when every rule of the hotel validator holds |
| Validators.HotelNameRules | HotelBooking/Validators/CreateHotelDtoValidator.cs:10-12 | Required when blank; too long beyond 200 |
| Validators.HotelAddressRules | HotelBooking/Validators/CreateHotelDtoValidator.cs:14-16 | Required when blank; too long beyond 500 |
| Validators.HotelCityRules | HotelBooking/Validators/CreateHotelDtoValidator.cs:18-20 | Required when blank; too long beyond 100 |
| Validators.HotelCountryRules | HotelBooking/Validators/CreateHotelDtoValidator.cs:22-24 | Required when blank; too long beyond 100 |
| Validators.HotelStarRatingRule | HotelBooking/Validators/CreateHotelDtoValidator.cs:26-27 | Refused exactly outside 1..5 |
| Validators.ValidateRoom | HotelBooking/Validators/CreateRoomDtoValidator.cs:8-26 | No failures exactly when every rule of the room validator holds |
| Validators.RoomHotelIdRule | HotelBooking/Validators/CreateRoomDtoValidator.cs:10-11 | Refused exactly when the hotel id is not positive |
| Validators.RoomNumberRules | HotelBooking/Validators/CreateRoomDtoValidator.cs:13-15 | Required when blank; too long beyond 50 |
| Validators.RoomTypeRules | HotelBooking/Validators/CreateRoomDtoValidator.cs:17-19 | Required when blank; too long beyond 50 |
| Validators.RoomPriceAndOccupancyRules | HotelBooking/Validators/CreateRoomDtoValidator.cs:21-25 | Refused exactly when the price or the occupancy is not positive |
| Validators.ValidateAmenity | HotelBooking/Validators/CreateAmenityDtoValidator.cs:8-17 | No failures exactly when every rule of the amenity validator holds |
| Validators.AmenityNameRules | HotelBooking/Validators/CreateAmenityDtoValidator.cs:10-12 | Required when blank; too long beyond 100 |
| Validators.AmenityIconRules | HotelBooking/Validators/CreateAmenityDtoValidator.cs:14-16 | Required when blank; too long beyond 50 |
| Validators.ValidateApiKey | HotelBooking/Validators/CreateApiKeyDtoValidator.cs:8-22 | No failures exactly when every rule of the API-key validator holds |
| Validators.ApiKeyNameRules | HotelBooking/Validators/CreateApiKeyDtoValidator.cs:10-12 | Required when blank; too long beyond 100 |
| Validators.ApiKeyExpiryRules | HotelBooking/Validators/CreateApiKeyDtoValidator.cs:14-22 | Required when the default date; refused exactly when not after now |

## Left out
- AuthService.LoginIndex: `FirstOrDefaultAsync` there has no `OrderBy`, so the database promises no row order; the model takes a username match over an email match, the order SQLite's OR plan over the Username and Email indexes gives, and another engine or plan could pick the other row when one user's email is another's username.

- Controllers, `Program.cs`, the mapping profile, the cache service, report repository and EF Core configuration beyond keys: HTTP plumbing and wiring, with no logic of the core.
- The thin "get all" and "delete" forwards of the services (`GetAllHotelsAsync`, `DeleteHotelAsync` and the like): each returns a repository call unchanged; the repository member is modelled.
- JWT issuing (`GenerateToken`, `GenerateRefreshToken`) and the token fields of the auth response: the JWT service is not part of this model.
- Asynchrony, concurrency and transactions: each operation is modelled as one atomic step on the database; two requests racing between the availability check and the insert are not modelled.
- Logging: no effect on state.
- SHA-256, Base64 and the random number generator: the hash is a function parameter, taken to be collision-free where a lemma needs it, and the Base64 text of the random bytes is a string parameter.
- `DateTime`: dates are whole day numbers and timestamps are integers supplied by the caller; time of day, `DateTime.Today` versus `UtcNow` and time zones are not modelled.
- `decimal`: prices are unbounded reals; rounding to `decimal(18,2)` is not modelled.
- Paging.PagedResult.TotalPages: a page size of zero or less is excluded by its precondition; the source divides by it as a double.
- HotelRepository.GetPaged: `(Page - 1) * PageSize` is computed without 32-bit wrap-around.
- HotelRepository.SortByName: names are ordered by ordinal character comparison, and ties keep table order; the database's collation and its order between equal names are not modelled.
- Navigation properties (`Include`), foreign keys and cascade deletes: a deleted hotel or room leaves its dependents in the model, and a room's hotel is checked only where a service checks it.
- The unique index on a room's hotel and number: not enforced, so a duplicate room number is accepted by the model where the database would refuse it.
- Validators: `MaximumLength` counts characters of the model's strings, not UTF-16 code units.
- Validators.IsEmailAddress: modelled as FluentValidation's default ASP.NET Core compatible check (one '@', neither first nor last); other library versions use a regular expression.
- `HotelsController` calls a paged hotel service method that `HotelService.cs` does not define; the repository's `GetPagedAsync` is modelled instead.
- The DbContext declares no sets for API keys, facilities, amenities or the two link tables; the model gives each its own table, as the repositories use them.
- `User.cs` has no `IsActive` or `LastLoginAt`, though `AuthService.cs` reads and writes both; the model's user record has them.
- `LoginDto`, `RegisterDto` and the amenity DTO file are not part of this model; their fields are taken from how the services use them.
- The booking service checks the room and its availability flag before the dates, so a bad date range for a missing or unavailable room reports the room; the model follows the code.
