/** UserRepository: the single-user lookups pass through; every list, test and count keeps only active users. */
module UserRepository {
  import opened Common
  import opened Users
  import opened Store

  predicate Active(u: ApplicationUser) { u.life.isActive }

  /** GetByIdAsync: no filter on IsActive, so a soft-deleted user is still found. */
  function GetByIdAsync(db: Db, id: string): (r: Option<ApplicationUser>)
    ensures r.Some? ==> r.value in db.users && r.value.id == id
    ensures r.None? <==> forall u :: u in db.users ==> u.id != id
  {
    FindById(db, id)
  }

  /** GetByEmailAsync: no filter on IsActive. */
  function GetByEmailAsync(db: Db, email: string): (r: Option<ApplicationUser>)
    ensures r.Some? ==> r.value in db.users && r.value.email == Some(email)
    ensures r.None? <==> forall u :: u in db.users ==> u.email != Some(email)
  {
    FindByEmail(db, email)
  }

  /** GetByUserNameAsync: no filter on IsActive. */
  function GetByUserNameAsync(db: Db, userName: string): (r: Option<ApplicationUser>)
    ensures r.Some? ==> r.value in db.users && r.value.userName == Some(userName)
    ensures r.None? <==> forall u :: u in db.users ==> u.userName != Some(userName)
  {
    FindByName(db, userName)
  }

  /** GetAllAsync: exactly the active users, in store order. */
  function GetAllAsync(db: Db): (r: seq<ApplicationUser>)
    ensures forall u :: u in r <==> u in db.users && u.life.isActive
  {
    Filter(db.users, Active)
  }

  /** GetByRoleAsync: the active members of the role. */
  function GetByRoleAsync(db: Db, role: string): (r: seq<ApplicationUser>)
    ensures forall u :: u in r <==> u in db.users && IsInRole(db, u, role) && u.life.isActive
  {
    Filter(UsersInRole(db, role), Active)
  }

  /** ExistsAsync: some active user has this id. */
  function ExistsAsync(db: Db, id: string): (b: bool)
    ensures b <==> exists u :: u in GetAllAsync(db) && u.id == id
  {
    exists u :: u in db.users && u.id == id && u.life.isActive
  }

  /** ExistsByEmailAsync: some active user has this email. */
  function ExistsByEmailAsync(db: Db, email: string): (b: bool)
    ensures b <==> exists u :: u in GetAllAsync(db) && u.email == Some(email)
  {
    exists u :: u in db.users && u.email == Some(email) && u.life.isActive
  }

  /** ExistsByUserNameAsync: some active user has this user name. */
  function ExistsByUserNameAsync(db: Db, userName: string): (b: bool)
    ensures b <==> exists u :: u in GetAllAsync(db) && u.userName == Some(userName)
  {
    exists u :: u in db.users && u.userName == Some(userName) && u.life.isActive
  }

  /** GetUserCountAsync: CountAsync(u => u.IsActive), the size of GetAllAsync. */
  function GetUserCountAsync(db: Db): (n: nat)
    ensures n == |GetAllAsync(db)|
  {
    CountIsFilterLength(db.users, Active);
    Count(db.users, Active)
  }

  /** GetInactiveUsersAsync: exactly the inactive users. */
  function GetInactiveUsersAsync(db: Db): (r: seq<ApplicationUser>)
    ensures forall u :: u in r <==> u in db.users && !u.life.isActive
  {
    Filter(db.users, (u: ApplicationUser) => !u.life.isActive)
  }

  /** GetUsersCreatedAfterAsync: the active users created at or after `date` (the bound is inclusive). */
  function GetUsersCreatedAfterAsync(db: Db, date: Instant): (r: seq<ApplicationUser>)
    ensures forall u :: u in r <==> u in db.users && u.life.isActive && u.life.createdAt >= date
  {
    Filter(db.users, (u: ApplicationUser) => u.life.isActive && u.life.createdAt >= date)
  }

  /** Active and inactive users partition the store: every row is in exactly one of the two lists. */
  lemma ActiveInactivePartition(db: Db)
    ensures multiset(GetAllAsync(db)) + multiset(GetInactiveUsersAsync(db)) == multiset(db.users)
    ensures forall u :: !(u in GetAllAsync(db) && u in GetInactiveUsersAsync(db))
  {
    FilterPartition(db.users, Active, (u: ApplicationUser) => !u.life.isActive);
  }

  /** A soft-deleted user is still found by id, yet ExistsAsync denies it when no active row has that id. */
  lemma LookupSeesWhatExistsHides(db: Db, u: ApplicationUser)
    requires u in db.users && !u.life.isActive
    requires forall v :: v in db.users && v.id == u.id ==> !v.life.isActive
    ensures GetByIdAsync(db, u.id).Some? && !ExistsAsync(db, u.id)
  {
  }
}

/** RoleRepository: lookups, a membership filter, a count and a projection over the roles. */
module RoleRepository {
  import opened Common
  import opened Users
  import opened Store

  /** GetByIdAsync. */
  function GetByIdAsync(db: Db, id: string): (r: Option<Role>)
    ensures r.Some? ==> r.value in db.roles && r.value.id == id
    ensures r.None? <==> forall ro :: ro in db.roles ==> ro.id != id
  {
    FindRoleById(db, id)
  }

  /** GetByNameAsync. */
  function GetByNameAsync(db: Db, name: string): (r: Option<Role>)
    ensures r.Some? ==> r.value in db.roles && r.value.name == name
    ensures r.None? <==> forall ro :: ro in db.roles ==> ro.name != name
  {
    FindRoleByName(db, name)
  }

  /** GetAllAsync: every role, in store order. */
  function GetAllAsync(db: Db): seq<Role>
  {
    db.roles
  }

  /** ExistsAsync: a lookup by id finds a role. */
  function ExistsAsync(db: Db, id: string): (b: bool)
    ensures b <==> exists ro :: ro in GetAllAsync(db) && ro.id == id
  {
    GetByIdAsync(db, id) != None
  }

  /** ExistsByNameAsync: a lookup by name finds a role. */
  function ExistsByNameAsync(db: Db, name: string): (b: bool)
    ensures b <==> exists ro :: ro in GetAllAsync(db) && ro.name == name
  {
    GetByNameAsync(db, name) != None
  }

  /** GetRoleCountAsync. */
  function GetRoleCountAsync(db: Db): (n: nat)
    ensures n == |GetAllAsync(db)|
  {
    |db.roles|
  }

  /** GetRolesByUserAsync: nothing for an unknown user, else the roles named among the user's role names. */
  function GetRolesByUserAsync(db: Db, userId: string): (r: seq<Role>)
    ensures FindById(db, userId).None? ==> r == []
    ensures FindById(db, userId).Some? ==>
              forall ro :: ro in r <==> ro in db.roles && ro.name in RoleNamesOf(db, FindById(db, userId).value)
  {
    match FindById(db, userId)
    case None => []
    case Some(user) =>
      var roleNames := RoleNamesOf(db, user);
      Filter(db.roles, (ro: Role) => ro.name in roleNames)
  }

  /** GetRoleNamesAsync: one name per role, in store order. */
  function GetRoleNamesAsync(db: Db): (r: seq<string>)
    ensures |r| == |GetAllAsync(db)|
    ensures forall i :: 0 <= i < |r| ==> r[i] == GetAllAsync(db)[i].name
  {
    Names(db.roles)
  }

  /** IsRoleAssignedToUserAsync: false for an unknown user, else whether the user is in the role. */
  function IsRoleAssignedToUserAsync(db: Db, roleName: string, userId: string): (b: bool)
    ensures FindById(db, userId).None? ==> !b
    ensures FindById(db, userId).Some? ==> (b <==> IsInRole(db, FindById(db, userId).value, roleName))
  {
    match FindById(db, userId)
    case None => false
    case Some(user) => IsInRole(db, user, roleName)
  }
}
