/** ApplicationUser and the framework's IdentityRole, as stored records. */
module Users {
  import opened Common
  import opened Persistence

  /**
   * The IdentityUser fields that only the framework reads or writes: the password hash,
   * the stamps, the phone and two-factor flags and the lockout counters.
   */
  datatype Credentials = Credentials(
    passwordHash: Option<string>,
    securityStamp: Option<string>,
    concurrencyStamp: Option<string>,
    phoneNumber: Option<string>,
    phoneNumberConfirmed: bool,
    twoFactorEnabled: bool,
    lockoutEnd: Option<Instant>,
    lockoutEnabled: bool,
    accessFailedCount: nat)

  /** ApplicationUser: an IdentityUser with a profile and the IBaseEntity lifecycle. */
  datatype ApplicationUser = ApplicationUser(
    id: string,
    userName: Option<string>,
    normalizedUserName: Option<string>,
    email: Option<string>,
    normalizedEmail: Option<string>,
    emailConfirmed: bool,
    credentials: Credentials,
    firstName: string,
    lastName: string,
    address: Option<string>,
    life: Lifecycle,
    lastLoginAt: Option<Instant>)

  /** The values the framework generates for a new IdentityUser (a GUID id and two GUID stamps). */
  datatype Generated = Generated(id: string, securityStamp: string, concurrencyStamp: string)

  /** new ApplicationUser(): the framework's initial values and this class's property initialisers. */
  function NewApplicationUser(gen: Generated, now: Instant): (u: ApplicationUser)
    ensures u.id == gen.id && u.userName.None? && u.email.None? && !u.emailConfirmed
    ensures u.firstName == "" && u.lastName == "" && u.address.None?
    ensures u.life.isActive && u.life.deletedAt.None? && u.life.createdAt == now && u.lastLoginAt.None?
  {
    ApplicationUser(
      gen.id, None, None, None, None, false,
      Credentials(None, Some(gen.securityStamp), Some(gen.concurrencyStamp), None, false, false, None, false, 0),
      "", "", None, NewLifecycle(now), None)
  }

  /** The display name used by ApplicationUser and UserDto: first and last name joined by a space, trimmed. */
  function DisplayName(firstName: string, lastName: string): (r: string)
    ensures r == [] || (!IsWhiteSpace(r[0]) && !IsWhiteSpace(r[|r| - 1]))
    ensures firstName == "" && lastName == "" ==> r == ""
  {
    var joined := firstName + " " + lastName;
    TrimEmptyIffWhiteSpaceOnly(joined);
    assert firstName == "" && lastName == "" ==> IsWhiteSpaceOnly(joined);
    Trim(joined)
  }

  /** ApplicationUser.FullName. */
  function FullName(u: ApplicationUser): string
  {
    DisplayName(u.firstName, u.lastName)
  }

  /** Names with no white space at their ends come out joined by exactly one space. */
  lemma {:induction false} DisplayNameOfTrimmedNames(firstName: string, lastName: string)
    requires firstName != "" && !IsWhiteSpace(firstName[0])
    requires lastName != "" && !IsWhiteSpace(lastName[|lastName| - 1])
    ensures DisplayName(firstName, lastName) == firstName + " " + lastName
  {
    var s := firstName + " " + lastName;
    var r := DisplayName(firstName, lastName);
    var i, j :| 0 <= i <= j <= |s| && r == s[i..j]
                && (forall k :: 0 <= k < i ==> IsWhiteSpace(s[k]))
                && (forall k :: j <= k < |s| ==> IsWhiteSpace(s[k]));
    assert s[0] == firstName[0];
    assert s[|s| - 1] == lastName[|lastName| - 1];
    assert i == 0;
    assert j == |s|;
  }

  /** The user as the soft-delete pass leaves it when it is saved with the given pending state. */
  function Saved(state: EntityState, u: ApplicationUser, now: Instant): ApplicationUser
  {
    u.(life := Intercept(Entry(state, WithLifecycle(u.life, ())), now).entity.life)
  }

  /** IdentityRole. */
  datatype Role = Role(id: string, name: string)

  /** IdentityUserRole: the user-role association. */
  datatype UserRole = UserRole(userId: string, roleId: string)
}
