/** Permissions: the permission names and the constant table of what each
    role may do. */
module Permissions {

  const HotelsRead: string := "Hotels:Read"
  const HotelsCreate: string := "Hotels:Create"
  const HotelsUpdate: string := "Hotels:Update"
  const HotelsDelete: string := "Hotels:Delete"

  const RoomsRead: string := "Rooms:Read"
  const RoomsCreate: string := "Rooms:Create"
  const RoomsUpdate: string := "Rooms:Update"
  const RoomsDelete: string := "Rooms:Delete"

  const BookingsRead: string := "Bookings:Read"
  const BookingsCreate: string := "Bookings:Create"
  const BookingsUpdate: string := "Bookings:Update"
  const BookingsDelete: string := "Bookings:Delete"

  /** RolePermissions: each role's permissions in declaration order. */
  const RolePermissions: map<string, seq<string>> := map[
    "Admin" := [HotelsRead, HotelsCreate, HotelsUpdate, HotelsDelete,
                RoomsRead, RoomsCreate, RoomsUpdate, RoomsDelete,
                BookingsRead, BookingsCreate, BookingsUpdate, BookingsDelete],
    "Manager" := [HotelsRead, HotelsCreate, HotelsUpdate,
                  RoomsRead, RoomsCreate, RoomsUpdate,
                  BookingsRead, BookingsCreate, BookingsUpdate],
    "User" := [HotelsRead, RoomsRead, BookingsRead, BookingsCreate]
  ]

  /** Every permission the class declares. */
  const AllPermissions: set<string> := {
    HotelsRead, HotelsCreate, HotelsUpdate, HotelsDelete,
    RoomsRead, RoomsCreate, RoomsUpdate, RoomsDelete,
    BookingsRead, BookingsCreate, BookingsUpdate, BookingsDelete
  }

  const DeletePermissions: set<string> := {HotelsDelete, RoomsDelete, BookingsDelete}

  /** The permissions a role holds; a role missing from the table holds none. */
  function Granted(role: string): (r: set<string>)
    ensures r <= AllPermissions
    ensures role !in RolePermissions ==> r == {}
  {
    if role in RolePermissions then set p | p in RolePermissions[role] else {}
  }

  /** The twelve names are distinct. */
  lemma TwelvePermissions()
    ensures |AllPermissions| == 12
    ensures DeletePermissions <= AllPermissions && |DeletePermissions| == 3
  {
  }

  /** The table has exactly three roles. */
  lemma ThreeRoles()
    ensures RolePermissions.Keys == {"Admin", "Manager", "User"}
  {
  }

  /** Admin holds every permission. */
  lemma AdminHoldsAll()
    ensures Granted("Admin") == AllPermissions
  {
  }

  /** Manager holds every permission except the three deletes. */
  lemma ManagerHoldsAllButDelete()
    ensures Granted("Manager") == AllPermissions - DeletePermissions
  {
  }

  /** User may read hotels, rooms and bookings, and create bookings. */
  lemma UserHoldsFour()
    ensures Granted("User") == {HotelsRead, RoomsRead, BookingsRead, BookingsCreate}
  {
  }

  /** The roles are nested: User within Manager within Admin. */
  lemma RolesAreNested()
    ensures Granted("User") <= Granted("Manager") <= Granted("Admin")
  {
    UserHoldsFour();
    ManagerHoldsAllButDelete();
    AdminHoldsAll();
  }

  /** Only Admin may delete anything. */
  lemma OnlyAdminDeletes(role: string)
    requires Granted(role) * DeletePermissions != {}
    ensures role == "Admin"
  {
    if role == "Manager" {
      ManagerHoldsAllButDelete();
    } else if role == "User" {
      UserHoldsFour();
    }
  }
}
