/**
 * The identity store behind UserManager and RoleManager: user rows, role rows and the
 * user-role association. Lookups compare keys exactly and return the first match.
 * Every write of a row is saved through ApplicationDbContext's soft-delete pass.
 */
module Store {
  import opened Common
  import opened Persistence
  import opened Users

  datatype Db = Db(users: seq<ApplicationUser>, roles: seq<Role>, links: set<UserRole>)

  /** The first user satisfying `matches`, if any. */
  function FindUser(users: seq<ApplicationUser>, matches: ApplicationUser -> bool): (r: Option<ApplicationUser>)
    ensures r.Some? ==> r.value in users && matches(r.value)
    ensures r.None? <==> forall u :: u in users ==> !matches(u)
  {
    if users == [] then None
    else if matches(users[0]) then Some(users[0])
    else FindUser(users[1..], matches)
  }

  /** The first role satisfying `matches`, if any. */
  function FindRole(roles: seq<Role>, matches: Role -> bool): (r: Option<Role>)
    ensures r.Some? ==> r.value in roles && matches(r.value)
    ensures r.None? <==> forall ro :: ro in roles ==> !matches(ro)
  {
    if roles == [] then None
    else if matches(roles[0]) then Some(roles[0])
    else FindRole(roles[1..], matches)
  }

  /** UserManager.FindByIdAsync. */
  function FindById(db: Db, id: string): Option<ApplicationUser>
  {
    FindUser(db.users, (u: ApplicationUser) => u.id == id)
  }

  /** UserManager.FindByNameAsync. */
  function FindByName(db: Db, userName: string): Option<ApplicationUser>
  {
    FindUser(db.users, (u: ApplicationUser) => u.userName == Some(userName))
  }

  /** UserManager.FindByEmailAsync. */
  function FindByEmail(db: Db, email: string): Option<ApplicationUser>
  {
    FindUser(db.users, (u: ApplicationUser) => u.email == Some(email))
  }

  /** RoleManager.FindByIdAsync. */
  function FindRoleById(db: Db, id: string): Option<Role>
  {
    FindRole(db.roles, (ro: Role) => ro.id == id)
  }

  /** RoleManager.FindByNameAsync. */
  function FindRoleByName(db: Db, name: string): Option<Role>
  {
    FindRole(db.roles, (ro: Role) => ro.name == name)
  }

  /** RoleManager.RoleExistsAsync. */
  predicate RoleExists(db: Db, name: string)
  {
    FindRoleByName(db, name).Some?
  }

  /** RoleValidator keeps role names unique. */
  predicate UniqueRoleNames(db: Db)
  {
    forall i, j :: 0 <= i < j < |db.roles| ==> db.roles[i].name != db.roles[j].name
  }

  /** The names of a list of roles, in order. */
  function Names(roles: seq<Role>): (r: seq<string>)
    ensures |r| == |roles|
    ensures forall i :: 0 <= i < |roles| ==> r[i] == roles[i].name
  {
    if roles == [] then [] else [roles[0].name] + Names(roles[1..])
  }

  /** The roles linked to a user. */
  function RolesOf(db: Db, u: ApplicationUser): seq<Role>
  {
    Filter(db.roles, (ro: Role) => UserRole(u.id, ro.id) in db.links)
  }

  /** UserManager.GetRolesAsync: the names of the roles the user is linked to. */
  function RoleNamesOf(db: Db, u: ApplicationUser): (r: seq<string>)
    ensures forall ro :: ro in db.roles && UserRole(u.id, ro.id) in db.links ==> ro.name in r
    ensures forall n :: n in r ==> exists ro :: ro in db.roles && UserRole(u.id, ro.id) in db.links && ro.name == n
  {
    var linked := RolesOf(db, u);
    var r := Names(linked);
    assert forall ro :: ro in linked ==> ro.name in r by {
      forall ro | ro in linked ensures ro.name in r {
        var i :| 0 <= i < |linked| && linked[i] == ro;
        assert r[i] == ro.name;
      }
    }
    assert forall n :: n in r ==> exists ro :: ro in linked && ro.name == n by {
      forall n | n in r ensures exists ro :: ro in linked && ro.name == n {
        var i :| 0 <= i < |r| && r[i] == n;
        assert linked[i] in linked;
      }
    }
    r
  }

  /** UserManager.IsInRoleAsync: the role of that name exists and the user is linked to it. */
  predicate IsInRole(db: Db, u: ApplicationUser, roleName: string)
  {
    var role := FindRoleByName(db, roleName);
    role.Some? && UserRole(u.id, role.value.id) in db.links
  }

  /** With unique role names, being in a role is having its name among the user's role names. */
  lemma IsInRoleIffNamed(db: Db, u: ApplicationUser, roleName: string)
    requires UniqueRoleNames(db)
    ensures IsInRole(db, u, roleName) <==> roleName in RoleNamesOf(db, u)
  {
    if roleName in RoleNamesOf(db, u) {
      var ro :| ro in db.roles && UserRole(u.id, ro.id) in db.links && ro.name == roleName;
      var found := FindRoleByName(db, roleName);
      assert found.Some?;
      var i :| 0 <= i < |db.roles| && db.roles[i] == ro;
      var j :| 0 <= j < |db.roles| && db.roles[j] == found.value;
      assert i == j;
    }
  }

  /** UserManager.GetUsersInRoleAsync: the users linked to the role of that name; none if there is no such role. */
  function UsersInRole(db: Db, roleName: string): (r: seq<ApplicationUser>)
    ensures FindRoleByName(db, roleName).None? ==> r == []
    ensures forall u :: u in r <==> u in db.users && IsInRole(db, u, roleName)
  {
    match FindRoleByName(db, roleName)
    case None => []
    case Some(role) => Filter(db.users, (u: ApplicationUser) => UserRole(u.id, role.id) in db.links)
  }

  /** The user rows after writing `v` over every row with its id. */
  function Replace(users: seq<ApplicationUser>, v: ApplicationUser): (r: seq<ApplicationUser>)
    ensures |r| == |users|
    ensures forall i :: 0 <= i < |users| ==> r[i] == if users[i].id == v.id then v else users[i]
  {
    seq(|users|, i requires 0 <= i < |users| => if users[i].id == v.id then v else users[i])
  }

  /** A row that was found by id reads back as the value written over it. */
  lemma {:induction false} FindAfterReplace(users: seq<ApplicationUser>, v: ApplicationUser)
    requires exists u :: u in users && u.id == v.id
    ensures FindUser(Replace(users, v), (u: ApplicationUser) => u.id == v.id) == Some(v)
  {
    if users[0].id != v.id {
      assert Replace(users, v)[1..] == Replace(users[1..], v);
      FindAfterReplace(users[1..], v);
    }
  }

  /** The store, updated in place by the framework's write operations. */
  class IdentityStore {
    var db: Db

    constructor (initial: Db)
      ensures db == initial
    {
      db := initial;
    }

    /**
     * UserManager.UpdateAsync. The framework's checks decide `verdict`; on success the user is
     * saved as a Modified entry, so the soft-delete pass runs over it first.
     */
    method UpdateAsync(u: ApplicationUser, verdict: IdentityResult, now: Instant) returns (result: IdentityResult)
      modifies this
      ensures result == verdict
      ensures db == if verdict.succeeded then old(db).(users := Replace(old(db).users, Saved(Modified, u, now))) else old(db)
    {
      result := verdict;
      if verdict.succeeded {
        var entries := new Entry<()>[1](_ => Entry(Modified, WithLifecycle(u.life, ())));
        assert entries[..] == [Entry(Modified, WithLifecycle(u.life, ()))];
        var written := SaveChangesAsync(entries, now);
        db := db.(users := Replace(db.users, u.(life := entries[0].entity.life)));
      }
    }

    /**
     * UserManager.CreateAsync(user, password). The framework's checks (password policy, unique
     * name and email) decide `verdict`; on success the user is saved as an Added entry.
     */
    method CreateAsync(u: ApplicationUser, password: string, verdict: IdentityResult, now: Instant)
      returns (result: IdentityResult)
      modifies this
      ensures result == verdict
      ensures db == if verdict.succeeded then old(db).(users := old(db).users + [Saved(Added, u, now)]) else old(db)
    {
      result := verdict;
      if verdict.succeeded {
        var entries := new Entry<()>[1](_ => Entry(Added, WithLifecycle(u.life, ())));
        assert entries[..] == [Entry(Added, WithLifecycle(u.life, ()))];
        var written := SaveChangesAsync(entries, now);
        db := db.(users := db.users + [u.(life := entries[0].entity.life)]);
      }
    }

    /** RoleManager.CreateAsync. IdentityRole has no lifecycle, so the pass leaves it as it is. */
    method CreateRoleAsync(role: Role, now: Instant)
      modifies this
      ensures db == old(db).(roles := old(db).roles + [role])
    {
      var entries := new Entry<Role>[1](_ => Entry(Added, WithoutLifecycle(role)));
      assert entries[..] == [Entry(Added, WithoutLifecycle(role))];
      var written := SaveChangesAsync(entries, now);
      db := db.(roles := db.roles + [entries[0].entity.data]);
    }

    /**
     * UserManager.AddToRoleAsync: throws when no role has that name, fails when the user
     * already holds it, and otherwise links the user to the role.
     */
    method AddToRoleAsync(u: ApplicationUser, roleName: string) returns (outcome: Outcome<IdentityResult>)
      modifies this
      ensures old(FindRoleByName(db, roleName)).None? ==> outcome.Threw? && db == old(db)
      ensures old(FindRoleByName(db, roleName)).Some? ==>
                var link := UserRole(u.id, old(FindRoleByName(db, roleName)).value.id);
                && outcome.Returned?
                && outcome.value.succeeded == (link !in old(db).links)
                && db == old(db).(links := old(db).links + {link})
    {
      var role := FindRoleByName(db, roleName);
      if role.None? {
        return Threw("Role " + roleName + " does not exist.");
      }
      var link := UserRole(u.id, role.value.id);
      if link in db.links {
        return Returned(IdentityResult(false, ["User already in role '" + roleName + "'."]));
      }
      db := db.(links := db.links + {link});
      outcome := Returned(IdentityResult(true, []));
    }
  }
}
