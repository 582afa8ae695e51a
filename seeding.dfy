/** DatabaseInitializer: seeds the three roles, then the administrator account. */
module DatabaseInitializer {
  import opened Common
  import opened Persistence
  import opened Users
  import opened Store

  const SeedRoleNames: seq<string> := ["Admin", "User", "Manager"]
  const AdminEmail: string := "admin@example.com"
  const AdminUserName: string := "admin"
  const AdminPassword: string := "Admin@123456"
  const AdminRole: string := "Admin"

  /** One turn of the seeding loop: create the role unless a role of that name exists. */
  function SeedRole(db: Db, name: string, newRoleId: string -> string): Db
  {
    if RoleExists(db, name) then db else db.(roles := db.roles + [Role(newRoleId(name), name)])
  }

  /** A role that exists keeps existing when roles are only appended. */
  lemma RoleExistsGrows(a: Db, b: Db, name: string)
    requires a.roles <= b.roles && RoleExists(a, name)
    ensures RoleExists(b, name)
  {
    var ro := FindRoleByName(a, name).value;
    assert ro in b.roles;
  }

  /** What seeding `names` guarantees about `d`, starting from `db`. */
  predicate SeededFrom(db: Db, d: Db, names: seq<string>)
  {
    // only roles are added, after the existing ones
    && d.users == db.users && d.links == db.links && db.roles <= d.roles
    // afterwards every name has a role
    && (forall n :: n in names ==> RoleExists(d, n))
    // a role is created only for a listed name that had no role before
    && (forall ro :: ro in d.roles[|db.roles|..] ==> ro.name in names && !RoleExists(db, ro.name))
  }

  /** One more turn of the loop extends the guarantee to one more name. */
  lemma SeedRoleExtends(db: Db, before: Db, names: seq<string>, name: string, newRoleId: string -> string)
    requires SeededFrom(db, before, names)
    ensures SeededFrom(db, SeedRole(before, name, newRoleId), names + [name])
  {
    var d := SeedRole(before, name, newRoleId);
    forall n | n in names + [name] ensures RoleExists(d, n) {
      if n in names {
        RoleExistsGrows(before, d, n);
      } else if !RoleExists(before, name) {
        assert Role(newRoleId(name), name) in d.roles;
      }
    }
    if !RoleExists(before, name) {
      assert d.roles[|db.roles|..] == before.roles[|db.roles|..] + [Role(newRoleId(name), name)];
      if RoleExists(db, name) {
        RoleExistsGrows(db, before, name);
      }
    }
  }

  /** The store after seeding the given role names in order. */
  function SeedRoles(db: Db, names: seq<string>, newRoleId: string -> string): (d: Db)
    ensures SeededFrom(db, d, names)
    decreases |names|
  {
    if names == [] then db
    else
      var before := SeedRoles(db, names[..|names| - 1], newRoleId);
      assert names == names[..|names| - 1] + [names[|names| - 1]];
      SeedRoleExtends(db, before, names[..|names| - 1], names[|names| - 1], newRoleId);
      SeedRole(before, names[|names| - 1], newRoleId)
  }

  /** Seeding names that all have roles already changes nothing. */
  lemma {:induction false} SeedExistingIsNoop(db: Db, names: seq<string>, newRoleId: string -> string)
    requires forall n :: n in names ==> RoleExists(db, n)
    ensures SeedRoles(db, names, newRoleId) == db
    decreases |names|
  {
    if names != [] {
      SeedExistingIsNoop(db, names[..|names| - 1], newRoleId);
    }
  }

  /** Seeding twice gives the same roles as seeding once. */
  lemma SeedRolesIdempotent(db: Db, newRoleId: string -> string)
    ensures SeedRoles(SeedRoles(db, SeedRoleNames, newRoleId), SeedRoleNames, newRoleId)
            == SeedRoles(db, SeedRoleNames, newRoleId)
  {
    SeedExistingIsNoop(SeedRoles(db, SeedRoleNames, newRoleId), SeedRoleNames, newRoleId);
  }

  /** Seeding one more name is one more turn of the loop. */
  lemma SeedRolesStep(db: Db, names: seq<string>, i: nat, newRoleId: string -> string)
    requires i < |names|
    ensures SeedRoles(db, names[..i + 1], newRoleId) == SeedRole(SeedRoles(db, names[..i], newRoleId), names[i], newRoleId)
  {
    assert names[..i + 1][..i] == names[..i];
  }

  /** SeedRolesAsync: for each role name, create the role if RoleExistsAsync says it is missing. */
  method SeedRolesAsync(store: IdentityStore, newRoleId: string -> string, now: Instant)
    modifies store
    ensures store.db == SeedRoles(old(store.db), SeedRoleNames, newRoleId)
  {
    for i := 0 to |SeedRoleNames|
      invariant store.db == SeedRoles(old(store.db), SeedRoleNames[..i], newRoleId)
    {
      SeedRolesStep(old(store.db), SeedRoleNames, i, newRoleId);
      var roleName := SeedRoleNames[i];
      var roleExists := RoleExists(store.db, roleName);
      if !roleExists {
        store.CreateRoleAsync(Role(newRoleId(roleName), roleName), now);
      }
    }
    assert SeedRoleNames[..|SeedRoleNames|] == SeedRoleNames;
  }

  /** The administrator account as the initializer builds it, before it is saved. */
  function AdminUser(gen: Generated, now: Instant): (u: ApplicationUser)
    ensures u.userName == Some(AdminUserName) && u.email == Some(AdminEmail) && u.emailConfirmed
    ensures u.firstName == "System" && u.lastName == "Administrator"
    ensures u.life.isActive && u.life.createdAt == now && u.life.deletedAt.None?
  {
    var blank := NewApplicationUser(gen, now);
    blank.(userName := Some(AdminUserName), email := Some(AdminEmail), emailConfirmed := true,
           firstName := "System", lastName := "Administrator",
           life := blank.life.(createdAt := now, isActive := true))
  }

  /**
   * SeedAdminUserAsync: when no user has the administrator's email, create the administrator
   * and, only if that succeeded, add it to the Admin role (which throws if that role is missing).
   */
  method SeedAdminUserAsync(store: IdentityStore, gen: Generated, verdict: IdentityResult, now: Instant)
    returns (outcome: Outcome<()>)
    modifies store
    ensures old(FindByEmail(store.db, AdminEmail)).Some? || !verdict.succeeded ==>
              outcome == Returned(()) && store.db == old(store.db)
    ensures old(FindByEmail(store.db, AdminEmail)).None? && verdict.succeeded ==>
              var admin := Saved(Added, AdminUser(gen, now), now);
              && store.db.users == old(store.db).users + [admin]
              && store.db.roles == old(store.db).roles
              && (old(RoleExists(store.db, AdminRole)) ==>
                    outcome == Returned(()) && store.db.links == old(store.db).links + {UserRole(admin.id, old(FindRoleByName(store.db, AdminRole)).value.id)})
              && (!old(RoleExists(store.db, AdminRole)) ==> outcome.Threw? && store.db.links == old(store.db).links)
  {
    var user := FindByEmail(store.db, AdminEmail);
    outcome := Returned(());
    if user.None? {
      var admin := AdminUser(gen, now);
      var result := store.CreateAsync(admin, AdminPassword, verdict, now);
      if result.succeeded {
        var added := store.AddToRoleAsync(admin, AdminRole);
        if added.Threw? {
          outcome := Threw(added.message);
        }
      }
    }
  }

  /**
   * InitializeDatabaseAsync without the migration step: roles first, then the administrator,
   * so adding the administrator to the Admin role cannot fail for want of the role.
   */
  method InitializeDatabaseAsync(store: IdentityStore, newRoleId: string -> string, gen: Generated,
                                 verdict: IdentityResult, now: Instant)
    returns (outcome: Outcome<()>)
    modifies store
    ensures outcome == Returned(())
    ensures forall n :: n in SeedRoleNames ==> RoleExists(store.db, n)
    ensures old(FindByEmail(store.db, AdminEmail)).None? && verdict.succeeded ==>
              var admin := Saved(Added, AdminUser(gen, now), now);
              && admin in store.db.users && admin.emailConfirmed && admin.life.isActive
              && IsInRole(store.db, admin, AdminRole)
    ensures old(FindByEmail(store.db, AdminEmail)).Some? || !verdict.succeeded ==>
              store.db == SeedRoles(old(store.db), SeedRoleNames, newRoleId)
  {
    SeedRolesAsync(store, newRoleId, now);
    assert FindByEmail(store.db, AdminEmail) == old(FindByEmail(store.db, AdminEmail));
    assert RoleExists(store.db, AdminRole);
    ghost var seeded := store.db;
    outcome := SeedAdminUserAsync(store, gen, verdict, now);
    assert FindRoleByName(store.db, AdminRole) == FindRoleByName(seeded, AdminRole);
  }
}
