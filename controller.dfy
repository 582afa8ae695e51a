/**
 * IdentityController: the decisions of ForgotPassword, ResetPassword, ChangePassword and
 * UpdateProfile, without the HTTP plumbing. ModelState.IsValid and the caller's
 * NameIdentifier claim are parameters.
 */
module Controller {
  import opened Common
  import opened Persistence
  import opened Users
  import opened Store
  import opened Dtos

  /** The action results these endpoints return, with the Message of their body. */
  datatype Response = Ok(message: string) | BadRequest(message: string) | InvalidModelState | Unauthorized | NotFound(message: string)

  const EmailRequiredMessage: string := "Email is required."
  const ResetLinkMessage: string := "If your email is registered, a password reset link has been sent."
  const PasswordResetMessage: string := "Password has been reset successfully."
  const PasswordChangedMessage: string := "Password changed successfully."
  const UserNotFoundMessage: string := "User not found."
  const EmailInUseMessage: string := "Email is already in use."
  const ProfileUpdatedMessage: string := "Profile updated successfully."

  /** A framework failure as a BadRequest whose message is the descriptions joined by ", ". */
  function FailureResponse(r: IdentityResult): Response
  {
    BadRequest(Join(r.errors, ", "))
  }

  /** The caller's id claim is present, non-empty and equal to the id in the request. */
  predicate CallerMatches(callerId: Option<string>, requestId: string)
  {
    !IsNullOrEmpty(callerId) && callerId.value == requestId
  }

  /**
   * ForgotPassword: the response and the reset token the framework generated (which the code
   * computes and discards). The response does not depend on whether the email is registered.
   */
  function ForgotPassword(db: Db, email: Option<string>, generate: ApplicationUser -> string)
    : (r: (Response, Option<string>))
    ensures IsNullOrEmpty(email) ==> r == (BadRequest(EmailRequiredMessage), None)
    ensures !IsNullOrEmpty(email) ==> r.0 == Ok(ResetLinkMessage)
    // a token is generated exactly for a registered email, for the user found by it
    ensures r.1.Some? <==> !IsNullOrEmpty(email) && FindByEmail(db, email.value).Some?
    ensures r.1.Some? ==> r.1.value == generate(FindByEmail(db, email.value).value)
  {
    if IsNullOrEmpty(email) then (BadRequest(EmailRequiredMessage), None)
    else
      match FindByEmail(db, email.value)
      case None => (Ok(ResetLinkMessage), None)
      case Some(user) =>
        var token := generate(user);
        (Ok(ResetLinkMessage), Some(token))
  }

  /** Two stores that differ in which emails are registered give the same ForgotPassword response. */
  lemma {:induction false} ForgotPasswordDoesNotRevealAccounts(db1: Db, db2: Db, email: Option<string>,
                                                               generate: ApplicationUser -> string)
    ensures ForgotPassword(db1, email, generate).0 == ForgotPassword(db2, email, generate).0
  {
    if !IsNullOrEmpty(email) {
      assert ForgotPassword(db1, email, generate).0 == Ok(ResetLinkMessage);
      assert ForgotPassword(db2, email, generate).0 == Ok(ResetLinkMessage);
    }
  }

  /**
   * ResetPassword: an unknown email gets the generic reset-link answer and no reset is attempted;
   * otherwise the framework's reset decides.
   */
  function ResetPassword(db: Db, modelValid: bool, dto: PasswordResetDto,
                         reset: (ApplicationUser, string, string) -> IdentityResult): (r: Response)
    ensures !modelValid ==> r == InvalidModelState
    ensures modelValid && FindByEmail(db, dto.email).None? ==> r == Ok(ResetLinkMessage)
    ensures modelValid && FindByEmail(db, dto.email).Some? ==>
              var result := reset(FindByEmail(db, dto.email).value, dto.token, dto.newPassword);
              (r.Ok? <==> result.succeeded)
              && (result.succeeded ==> r == Ok(PasswordResetMessage))
              && (!result.succeeded ==> r == BadRequest(Join(result.errors, ", ")))
  {
    if !modelValid then InvalidModelState
    else
      match FindByEmail(db, dto.email)
      case None => Ok(ResetLinkMessage)
      case Some(user) =>
        var result := reset(user, dto.token, dto.newPassword);
        if result.succeeded then Ok(PasswordResetMessage) else FailureResponse(result)
  }

  /**
   * For an unknown email the answer is ForgotPassword's answer for a registered one, and it is the
   * same whatever the framework's reset would have done.
   */
  lemma {:induction false} ResetUnknownEmailLooksLikeForgot(db: Db, other: Db, dto: PasswordResetDto,
                                                            reset1: (ApplicationUser, string, string) -> IdentityResult,
                                                            reset2: (ApplicationUser, string, string) -> IdentityResult,
                                                            generate: ApplicationUser -> string)
    requires FindByEmail(db, dto.email).None? && dto.email != ""
    ensures ResetPassword(db, true, dto, reset1) == ResetPassword(db, true, dto, reset2)
    ensures ResetPassword(db, true, dto, reset1) == ForgotPassword(other, Some(dto.email), generate).0
  {
    assert !IsNullOrEmpty(Some(dto.email));
  }

  /** ChangePassword: only the caller may change their own password, through the framework. */
  function ChangePassword(db: Db, modelValid: bool, callerId: Option<string>, dto: PasswordChangeDto,
                          change: (ApplicationUser, string, string) -> IdentityResult): (r: Response)
    ensures !modelValid ==> r == InvalidModelState
    ensures modelValid && !CallerMatches(callerId, dto.userId) ==> r == Unauthorized
    ensures modelValid && CallerMatches(callerId, dto.userId) && FindById(db, dto.userId).None? ==> r == Unauthorized
    ensures modelValid && CallerMatches(callerId, dto.userId) && FindById(db, dto.userId).Some? ==>
              var result := change(FindById(db, dto.userId).value, dto.currentPassword, dto.newPassword);
              (r.Ok? <==> result.succeeded)
              && (result.succeeded ==> r == Ok(PasswordChangedMessage))
              && (!result.succeeded ==> r == BadRequest(Join(result.errors, ", ")))
  {
    if !modelValid then InvalidModelState
    else if IsNullOrEmpty(callerId) || callerId.value != dto.userId then Unauthorized
    else
      match FindById(db, callerId.value)
      case None => Unauthorized
      case Some(user) =>
        var result := change(user, dto.currentPassword, dto.newPassword);
        if result.succeeded then Ok(PasswordChangedMessage) else FailureResponse(result)
  }

  /** A request for somebody else's id is refused before the framework is consulted. */
  lemma ChangePasswordForOthersIsRefused(db: Db, callerId: string, dto: PasswordChangeDto,
                                         change1: (ApplicationUser, string, string) -> IdentityResult,
                                         change2: (ApplicationUser, string, string) -> IdentityResult)
    requires callerId != dto.userId
    ensures ChangePassword(db, true, Some(callerId), dto, change1) == Unauthorized
    ensures ChangePassword(db, true, Some(callerId), dto, change1) == ChangePassword(db, true, Some(callerId), dto, change2)
  {
  }

  /** Another user already holds the requested email. */
  predicate EmailTaken(db: Db, userId: string, email: string)
  {
    var existing := FindByEmail(db, email);
    existing.Some? && existing.value.id != userId
  }

  /**
   * The user as UpdateProfile edits it: names and address from the request; a new email is set,
   * normalised and left unconfirmed; the request's IsActive is ignored.
   */
  function ProfileEdit(u: ApplicationUser, dto: UpdateUserDto, normalizeEmail: string -> string): (e: ApplicationUser)
    ensures e.firstName == dto.firstName && e.lastName == dto.lastName && e.address == dto.address
    ensures e.email == Some(dto.email)
    ensures u.email == Some(dto.email) ==> e.emailConfirmed == u.emailConfirmed && e.normalizedEmail == u.normalizedEmail
    ensures u.email != Some(dto.email) ==> !e.emailConfirmed && e.normalizedEmail == Some(normalizeEmail(dto.email))
    // the lifecycle, the id, the user name, the credentials and the last login are kept
    ensures e.(firstName := u.firstName, lastName := u.lastName, address := u.address, email := u.email,
               normalizedEmail := u.normalizedEmail, emailConfirmed := u.emailConfirmed) == u
  {
    var named := u.(firstName := dto.firstName, lastName := dto.lastName, address := dto.address);
    if named.email != Some(dto.email) then
      named.(email := Some(dto.email), normalizedEmail := Some(normalizeEmail(dto.email)), emailConfirmed := false)
    else named
  }

  /** Submitting the same profile again changes nothing more. */
  lemma ProfileEditIdempotent(u: ApplicationUser, dto: UpdateUserDto, normalizeEmail: string -> string)
    ensures ProfileEdit(ProfileEdit(u, dto, normalizeEmail), dto, normalizeEmail) == ProfileEdit(u, dto, normalizeEmail)
  {
  }

  /** Unlike the UpdateUserDto mapping, the profile edit never activates or deactivates the user. */
  lemma ProfileEditIgnoresIsActive(u: ApplicationUser, dto: UpdateUserDto, normalizeEmail: string -> string, now: Instant)
    ensures ProfileEdit(u, dto.(isActive := !dto.isActive), normalizeEmail) == ProfileEdit(u, dto, normalizeEmail)
    ensures Saved(Modified, ProfileEdit(u, dto, normalizeEmail), now).life == Saved(Modified, u, now).life
  {
  }

  /** No two users have the same id. */
  predicate UniqueIds(db: Db)
  {
    forall i, j :: 0 <= i < j < |db.users| ==> db.users[i].id != db.users[j].id
  }

  /** No two users have the same email (RequireUniqueEmail). */
  predicate UniqueEmails(db: Db)
  {
    forall i, j :: 0 <= i < j < |db.users| && db.users[i].email.Some? ==> db.users[i].email != db.users[j].email
  }

  /** When the email is not taken by another user, no row with a different id holds it. */
  lemma NotTakenMeansNoOtherHolder(db: Db, u: ApplicationUser, email: string)
    requires UniqueIds(db) && UniqueEmails(db)
    requires u in db.users && !EmailTaken(db, u.id, email)
    ensures forall m :: 0 <= m < |db.users| && db.users[m].id != u.id ==> db.users[m].email != Some(email)
  {
    var found := FindByEmail(db, email);
    if found.Some? {
      var k :| 0 <= k < |db.users| && db.users[k] == u;
      var w :| 0 <= w < |db.users| && db.users[w] == found.value;
      assert w == k;
      forall m | 0 <= m < |db.users| && db.users[m].id != u.id ensures db.users[m].email != Some(email) {
        if m < k { assert db.users[m].email.Some? ==> db.users[m].email != db.users[k].email; }
        if k < m { assert db.users[k].email != db.users[m].email; }
      }
    } else {
      forall m | 0 <= m < |db.users| ensures db.users[m].email != Some(email) {
        assert db.users[m] in db.users;
      }
    }
  }

  /** Writing a row whose email no other id holds keeps every email distinct. */
  lemma ReplaceKeepsEmailsUnique(db: Db, v: ApplicationUser)
    requires UniqueIds(db) && UniqueEmails(db)
    requires forall m :: 0 <= m < |db.users| && db.users[m].id != v.id ==> db.users[m].email != v.email
    ensures UniqueEmails(db.(users := Replace(db.users, v)))
  {
    var after := Replace(db.users, v);
    forall i, j | 0 <= i < j < |after| && after[i].email.Some?
      ensures after[i].email != after[j].email
    {
      assert db.users[i].id != db.users[j].id;
    }
  }

  /**
   * The controller's own conflict check is enough to keep emails unique: saving the edited
   * profile of a user whose requested email is not taken by another user keeps every email distinct.
   */
  lemma {:induction false} ProfileEditKeepsEmailsUnique(db: Db, u: ApplicationUser, dto: UpdateUserDto,
                                                        normalizeEmail: string -> string, now: Instant)
    requires UniqueIds(db) && UniqueEmails(db)
    requires u in db.users && !EmailTaken(db, u.id, dto.email)
    ensures UniqueEmails(db.(users := Replace(db.users, Saved(Modified, ProfileEdit(u, dto, normalizeEmail), now))))
  {
    var v := Saved(Modified, ProfileEdit(u, dto, normalizeEmail), now);
    assert v.id == u.id && v.email == Some(dto.email);
    NotTakenMeansNoOtherHolder(db, u, dto.email);
    ReplaceKeepsEmailsUnique(db, v);
  }

  /**
   * UpdateProfile: the caller edits their own profile. The loaded user is edited field by field
   * and saved through UserManager.UpdateAsync, whose checks decide `verdict`.
   */
  method UpdateProfile(store: IdentityStore, modelValid: bool, callerId: Option<string>, dto: UpdateUserDto,
                       normalizeEmail: string -> string, verdict: IdentityResult, now: Instant)
    returns (r: Response)
    modifies store
    ensures !modelValid ==> r == InvalidModelState && store.db == old(store.db)
    ensures modelValid && !CallerMatches(callerId, dto.id) ==> r == Unauthorized && store.db == old(store.db)
    ensures modelValid && CallerMatches(callerId, dto.id) && old(FindById(store.db, dto.id)).None? ==>
              r == NotFound(UserNotFoundMessage) && store.db == old(store.db)
    ensures modelValid && CallerMatches(callerId, dto.id) && old(FindById(store.db, dto.id)).Some? ==>
              var user := old(FindById(store.db, dto.id)).value;
              if user.email != Some(dto.email) && old(EmailTaken(store.db, dto.id, dto.email)) then
                r == BadRequest(EmailInUseMessage) && store.db == old(store.db)
              else
                && r == (if verdict.succeeded then Ok(ProfileUpdatedMessage) else BadRequest(Join(verdict.errors, ", ")))
                && store.db == (if verdict.succeeded
                                then old(store.db).(users := Replace(old(store.db).users, Saved(Modified, ProfileEdit(user, dto, normalizeEmail), now)))
                                else old(store.db))
  {
    if !modelValid {
      return InvalidModelState;
    }
    if IsNullOrEmpty(callerId) || callerId.value != dto.id {
      return Unauthorized;
    }
    var userId := callerId.value;
    var found := FindById(store.db, userId);
    if found.None? {
      return NotFound(UserNotFoundMessage);
    }
    var user := found.value;
    user := user.(firstName := dto.firstName);
    user := user.(lastName := dto.lastName);
    user := user.(address := dto.address);
    if user.email != Some(dto.email) {
      var existing := FindByEmail(store.db, dto.email);
      if existing.Some? && existing.value.id != userId {
        return BadRequest(EmailInUseMessage);
      }
      user := user.(email := Some(dto.email));
      user := user.(normalizedEmail := Some(normalizeEmail(dto.email)));
      user := user.(emailConfirmed := false);
    }
    assert user == ProfileEdit(found.value, dto, normalizeEmail);
    var result := store.UpdateAsync(user, verdict, now);
    if result.succeeded {
      return Ok(ProfileUpdatedMessage);
    }
    r := FailureResponse(result);
  }
}
