/**
 * IdentityService: the repository's orchestration around UserManager and SignInManager.
 * The framework's password, token and policy decisions are oracle parameters.
 */
module IdentityService {
  import opened Common
  import opened Persistence
  import opened Users
  import opened Store
  import RoleRepository

  const UserNotFound: string := "User not found"

  /** The (Success, Error) tuple the service returns. */
  datatype ServiceResult = ServiceResult(success: bool, error: Option<string>)

  /** A framework result as a (Success, Error) tuple: (true, null), or false with the descriptions joined by ", ". */
  function ShapeResult(r: IdentityResult): (s: ServiceResult)
    ensures s.success == r.succeeded
    ensures s.success <==> s.error.None?
    ensures !r.succeeded && r.errors != [] ==> r.errors[0] <= s.error.value
    ensures !r.succeeded && |r.errors| == 1 ==> s.error == Some(r.errors[0])
    ensures !r.succeeded && r.errors == [] ==> s.error == Some("")
  {
    if r.succeeded then ServiceResult(true, None) else ServiceResult(false, Some(Join(r.errors, ", ")))
  }

  /** A further description lengthens the error by the separator and that description. */
  lemma ShapeResultMoreErrors(errors: seq<string>, e: string)
    requires errors != []
    ensures ShapeResult(IdentityResult(false, errors + [e])).error.value
            == ShapeResult(IdentityResult(false, errors)).error.value + ", " + e
  {
    JoinSnoc(errors, e, ", ");
  }

  /** GetUserRolesAsync: an empty list for an unknown id, else the names of the roles the user is linked to. */
  function GetUserRolesAsync(db: Db, userId: string): (r: seq<string>)
    ensures FindById(db, userId).None? ==> r == []
    ensures FindById(db, userId).Some? ==>
              forall n :: n in r <==> exists ro :: ro in db.roles && ro.name == n && UserRole(userId, ro.id) in db.links
  {
    match FindById(db, userId)
    case None => []
    case Some(user) => RoleNamesOf(db, user)
  }

  /** IsUserInRoleAsync: delegates to the role repository. */
  function IsUserInRoleAsync(db: Db, userId: string, role: string): (b: bool)
    ensures FindById(db, userId).None? ==> !b
  {
    RoleRepository.IsRoleAssignedToUserAsync(db, role, userId)
  }

  /** With unique role names, the two role queries agree: a user is in a role iff the role is listed for it. */
  lemma UserInRoleIffListed(db: Db, userId: string, role: string)
    requires UniqueRoleNames(db)
    ensures IsUserInRoleAsync(db, userId, role) <==> role in GetUserRolesAsync(db, userId)
  {
    if FindById(db, userId).Some? {
      IsInRoleIffNamed(db, FindById(db, userId).value, role);
    }
  }

  /**
   * The decision of ValidateUserAsync: the named user exists, is active and passes the framework's
   * sign-in check. `checkPassword` stands for CheckPasswordSignInAsync, which besides the password
   * also refuses accounts whose e-mail is unconfirmed (the application requires a confirmed e-mail)
   * and accounts that are locked out.
   */
  predicate AcceptsLogin(db: Db, userName: string, password: string,
                         checkPassword: (ApplicationUser, string) -> bool)
  {
    var user := FindByName(db, userName);
    user.Some? && user.value.life.isActive && checkPassword(user.value, password)
  }

  /**
   * ValidateUserAsync: a missing or inactive user is refused without a write; otherwise the
   * framework's sign-in check decides, and on success LastLoginAt is set and the user updated.
   * The update's own result does not affect the answer.
   */
  method ValidateUserAsync(store: IdentityStore, userName: string, password: string,
                           checkPassword: (ApplicationUser, string) -> bool,
                           updateVerdict: IdentityResult, now: Instant)
    returns (ok: bool)
    modifies store
    ensures ok == AcceptsLogin(old(store.db), userName, password, checkPassword)
    ensures !ok ==> store.db == old(store.db)
    ensures ok ==>
              var user := old(FindByName(store.db, userName)).value.(lastLoginAt := Some(now));
              && (updateVerdict.succeeded ==>
                    store.db == old(store.db).(users := Replace(old(store.db).users, user))
                    && FindById(store.db, user.id) == Some(user))
              && (!updateVerdict.succeeded ==> store.db == old(store.db))
  {
    var found := FindByName(store.db, userName);
    if found.None? || !found.value.life.isActive {
      return false;
    }
    var user := found.value;
    var succeeded := checkPassword(user, password);
    if succeeded {
      user := user.(lastLoginAt := Some(now));
      var updated := store.UpdateAsync(user, updateVerdict, now);
      if updateVerdict.succeeded {
        FindAfterReplace(old(store.db).users, user);
      }
    }
    ok := succeeded;
  }

  /** CreateUserAsync: UserManager.CreateAsync, its result shaped. */
  method CreateUserAsync(store: IdentityStore, user: ApplicationUser, password: string,
                         verdict: IdentityResult, now: Instant)
    returns (r: ServiceResult)
    modifies store
    ensures r == ShapeResult(verdict)
    ensures store.db == if verdict.succeeded then old(store.db).(users := old(store.db).users + [Saved(Added, user, now)]) else old(store.db)
  {
    var result := store.CreateAsync(user, password, verdict, now);
    r := ShapeResult(result);
  }

  /** UpdateUserAsync: UserManager.UpdateAsync, its result shaped. */
  method UpdateUserAsync(store: IdentityStore, user: ApplicationUser, verdict: IdentityResult, now: Instant)
    returns (r: ServiceResult)
    modifies store
    ensures r == ShapeResult(verdict)
    ensures store.db == if verdict.succeeded then old(store.db).(users := Replace(old(store.db).users, Saved(Modified, user, now))) else old(store.db)
  {
    var result := store.UpdateAsync(user, verdict, now);
    r := ShapeResult(result);
  }

  /** The user as DeleteUserAsync leaves it: inactive, and stamped now whatever its previous stamp. */
  function SoftDeleted(u: ApplicationUser, now: Instant): (d: ApplicationUser)
    ensures !d.life.isActive && d.life.deletedAt == Some(now)
    ensures d.life.createdAt == u.life.createdAt && d.(life := u.life) == u
  {
    u.(life := u.life.(isActive := false, deletedAt := Some(now)))
  }

  /**
   * DeleteUserAsync: an unknown id gives (false, "User not found") with no write; otherwise the
   * user is deactivated and stamped and saved as an update, never removed.
   */
  method DeleteUserAsync(store: IdentityStore, userId: string, verdict: IdentityResult, now: Instant)
    returns (r: ServiceResult)
    modifies store
    ensures old(FindById(store.db, userId)).None? ==>
              r == ServiceResult(false, Some(UserNotFound)) && store.db == old(store.db)
    ensures old(FindById(store.db, userId)).Some? ==>
              var deleted := SoftDeleted(old(FindById(store.db, userId)).value, now);
              && r == ShapeResult(verdict)
              && |store.db.users| == |old(store.db).users|
              && (verdict.succeeded ==>
                    store.db == old(store.db).(users := Replace(old(store.db).users, deleted))
                    && FindById(store.db, userId) == Some(deleted))
              && (!verdict.succeeded ==> store.db == old(store.db))
  {
    var found := FindById(store.db, userId);
    if found.None? {
      return ServiceResult(false, Some(UserNotFound));
    }
    var user := found.value;
    user := user.(life := user.life.(isActive := false));
    user := user.(life := user.life.(deletedAt := Some(now)));
    var result := store.UpdateAsync(user, verdict, now);
    if verdict.succeeded {
      FindAfterReplace(old(store.db).users, user);
    }
    r := ShapeResult(result);
  }

  /** The soft-delete pass leaves a soft-deleted user exactly as DeleteUserAsync wrote it. */
  lemma SoftDeletedSavesUnchanged(u: ApplicationUser, now: Instant, later: Instant)
    ensures Saved(Modified, SoftDeleted(u, now), later) == SoftDeleted(u, now)
  {
  }

  /** ChangePasswordAsync: an unknown id fails with "User not found" before the framework is asked. */
  function ChangePasswordAsync(db: Db, userId: string, currentPassword: string, newPassword: string,
                               change: (ApplicationUser, string, string) -> IdentityResult): (r: ServiceResult)
    ensures FindById(db, userId).None? ==> r == ServiceResult(false, Some(UserNotFound))
    ensures FindById(db, userId).Some? ==>
              r.success == change(FindById(db, userId).value, currentPassword, newPassword).succeeded
    // a failure carries the framework's descriptions joined by ", "
    ensures FindById(db, userId).Some? ==> r == ShapeResult(change(FindById(db, userId).value, currentPassword, newPassword))
    ensures r.success <==> r.error.None?
  {
    match FindById(db, userId)
    case None => ServiceResult(false, Some(UserNotFound))
    case Some(user) => ShapeResult(change(user, currentPassword, newPassword))
  }

  /** ResetPasswordAsync: an unknown id fails with "User not found" before the token is checked. */
  function ResetPasswordAsync(db: Db, userId: string, token: string, newPassword: string,
                              reset: (ApplicationUser, string, string) -> IdentityResult): (r: ServiceResult)
    ensures FindById(db, userId).None? ==> r == ServiceResult(false, Some(UserNotFound))
    ensures FindById(db, userId).Some? ==>
              r.success == reset(FindById(db, userId).value, token, newPassword).succeeded
    // a failure carries the framework's descriptions joined by ", "
    ensures FindById(db, userId).Some? ==> r == ShapeResult(reset(FindById(db, userId).value, token, newPassword))
    ensures r.success <==> r.error.None?
  {
    match FindById(db, userId)
    case None => ServiceResult(false, Some(UserNotFound))
    case Some(user) => ShapeResult(reset(user, token, newPassword))
  }

  /** GeneratePasswordResetTokenAsync: throws for an unknown id, else the framework's token. */
  function GeneratePasswordResetTokenAsync(db: Db, userId: string, generate: ApplicationUser -> string)
    : (r: Outcome<string>)
    ensures FindById(db, userId).None? <==> r.Threw?
    ensures r.Returned? ==> r.value == generate(FindById(db, userId).value)
  {
    match FindById(db, userId)
    case None => Threw(UserNotFound)
    case Some(user) => Returned(generate(user))
  }

  /** ConfirmEmailAsync: false for an unknown id, else whether the framework accepted the token. */
  function ConfirmEmailAsync(db: Db, userId: string, token: string,
                             confirm: (ApplicationUser, string) -> IdentityResult): (b: bool)
    ensures FindById(db, userId).None? ==> !b
    ensures FindById(db, userId).Some? ==> b == confirm(FindById(db, userId).value, token).succeeded
  {
    match FindById(db, userId)
    case None => false
    case Some(user) => confirm(user, token).succeeded
  }

  /** GenerateEmailConfirmationTokenAsync: throws for an unknown id, else the framework's token. */
  function GenerateEmailConfirmationTokenAsync(db: Db, userId: string, generate: ApplicationUser -> string)
    : (r: Outcome<string>)
    ensures FindById(db, userId).None? <==> r.Threw?
    ensures r.Returned? ==> r.value == generate(FindById(db, userId).value)
  {
    match FindById(db, userId)
    case None => Threw(UserNotFound)
    case Some(user) => Returned(generate(user))
  }
}
