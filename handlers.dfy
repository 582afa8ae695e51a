/**
 * The MediatR handlers: decision flows from validator and service outcomes to fixed
 * (Succeeded, Message) pairs. A service call that throws is an Outcome.Threw.
 */
module Handlers {
  import opened Common
  import opened Users
  import opened Store
  import opened Dtos
  import opened ValidationRules
  import opened RegisterValidation
  import opened LoginValidation
  import opened Mappings
  import opened IdentityService
  import UserRepository

  /** The (Succeeded, Message) pair of a command. */
  datatype CommandResult = CommandResult(succeeded: bool, message: string)

  const RegisteredMessage: string := "User registered successfully"
  const MismatchMessage: string := "Password and confirmation do not match"
  const CreateFailedMessage: string := "Failed to create user"
  const InvalidCredentialsMessage: string := "Invalid username or password"
  const LoginSucceededMessage: string := "Login successful"
  const ErrorPrefix: string := "An error occurred: "

  /** string.Join(", ", validationResult.Errors.Select(e => e.ErrorMessage)). */
  function JoinedMessages(errors: seq<Failure>): (s: string)
    ensures errors != [] ==> Message(errors[0]) <= s
    ensures |errors| == 1 ==> s == Message(errors[0])
  {
    Join(Messages(errors), ", ")
  }

  /**
   * RegisterUserCommandHandler.Handle: validate, compare password and confirmation, map the form
   * to a new user and create it; an exception becomes a failure carrying its message.
   */
  function RegisterUser(dto: RegisterUserDto, isEmailAddress: string -> bool, gen: Generated, now: Instant,
                        createUser: ApplicationUser -> Outcome<ServiceResult>): (r: CommandResult)
    ensures r.succeeded <==>
              && ValidRegistration(dto, isEmailAddress, DollarAnchor)
              && createUser(MapRegisterUserDto(dto, gen, now)).Returned?
              && createUser(MapRegisterUserDto(dto, gen, now)).value.success
    ensures r.succeeded ==> r.message == RegisteredMessage
    // an invalid form is refused with its messages, and creation is not attempted
    ensures !ValidRegistration(dto, isEmailAddress, DollarAnchor) ==>
              r == CommandResult(false, JoinedMessages(ValidateRegistration(dto, isEmailAddress, DollarAnchor)))
    // a creation that throws or fails is a failure with the exception's or the service's message
    ensures ValidRegistration(dto, isEmailAddress, DollarAnchor) ==>
              match createUser(MapRegisterUserDto(dto, gen, now))
              case Threw(m) => r == CommandResult(false, ErrorPrefix + m)
              case Returned(created) =>
                !created.success ==> r == CommandResult(false, if created.error.Some? then created.error.value else CreateFailedMessage)
  {
    var errors := ValidateRegistration(dto, isEmailAddress, DollarAnchor);
    if errors != [] then
      assert Message(errors[0]) <= JoinedMessages(errors);
      CommandResult(false, JoinedMessages(errors))
    else if dto.password != dto.confirmPassword then
      CommandResult(false, MismatchMessage)
    else
      match createUser(MapRegisterUserDto(dto, gen, now))
      case Threw(m) => CommandResult(false, ErrorPrefix + m)
      case Returned(created) =>
        if !created.success then
          CommandResult(false, if created.error.Some? then created.error.value else CreateFailedMessage)
        else CommandResult(true, RegisteredMessage)
  }

  /**
   * Through the identity service the handler succeeds exactly when the framework creates the user;
   * a failure carries the framework's descriptions, never the fallback text.
   */
  lemma RegisterThroughService(dto: RegisterUserDto, isEmailAddress: string -> bool, gen: Generated, now: Instant,
                               verdict: IdentityResult)
    requires ValidRegistration(dto, isEmailAddress, DollarAnchor)
    ensures RegisterUser(dto, isEmailAddress, gen, now, (u: ApplicationUser) => Returned(ShapeResult(verdict)))
            == if verdict.succeeded then CommandResult(true, RegisteredMessage)
               else CommandResult(false, ShapeResult(verdict).error.value)
  {
  }

  /**
   * A form the intended validator accepts, with a line feed appended to its user name, passes the
   * validation step as written and goes on to creation: the answer is the creation's (the framework,
   * whose allowed user-name characters hold no line feed, refuses it there).
   */
  lemma NewlineUserNameReachesCreation(dto: RegisterUserDto, isEmailAddress: string -> bool, gen: Generated,
                                       now: Instant, createUser: ApplicationUser -> Outcome<ServiceResult>)
    requires ValidRegistration(dto, isEmailAddress, EndAnchor) && Utf16Length(dto.userName) < 50
    ensures var withNewline := dto.(userName := dto.userName + "\n");
            var created := createUser(MapRegisterUserDto(withNewline, gen, now));
            RegisterUser(withNewline, isEmailAddress, gen, now, createUser).succeeded
            <==> created.Returned? && created.value.success
  {
    TrailingNewlineUserNamePassesValidation(dto, isEmailAddress);
  }

  /** LoginUserCommandHandler.Handle: validate, then one credential check with a fixed answer each way. */
  function LoginUser(dto: LoginDto, validateUser: (string, string) -> Outcome<bool>): (r: CommandResult)
    ensures r.succeeded <==> ValidateLogin(dto) == [] && validateUser(dto.userName, dto.password) == Returned(true)
    ensures r.succeeded ==> r.message == LoginSucceededMessage
    ensures ValidateLogin(dto) != [] ==> r == CommandResult(false, JoinedMessages(ValidateLogin(dto)))
    ensures ValidateLogin(dto) == [] ==>
              match validateUser(dto.userName, dto.password)
              case Threw(m) => r == CommandResult(false, ErrorPrefix + m)
              case Returned(ok) => !ok ==> r == CommandResult(false, InvalidCredentialsMessage)
  {
    var errors := ValidateLogin(dto);
    if errors != [] then CommandResult(false, JoinedMessages(errors))
    else
      match validateUser(dto.userName, dto.password)
      case Threw(m) => CommandResult(false, ErrorPrefix + m)
      case Returned(ok) =>
        if !ok then CommandResult(false, InvalidCredentialsMessage) else CommandResult(true, LoginSucceededMessage)
  }

  /**
   * Through ValidateUserAsync's decision, an unknown user name, an inactive user and a wrong password
   * all give the same answer.
   */
  lemma {:induction false} LoginRefusalIsUniform(db: Db, dto: LoginDto, checkPassword: (ApplicationUser, string) -> bool)
    requires ValidateLogin(dto) == []
    requires var user := FindByName(db, dto.userName);
             user.None? || !user.value.life.isActive || !checkPassword(user.value, dto.password)
    ensures LoginUser(dto, (n: string, p: string) => Returned(AcceptsLogin(db, n, p, checkPassword)))
            == CommandResult(false, InvalidCredentialsMessage)
  {
    assert !AcceptsLogin(db, dto.userName, dto.password, checkPassword);
  }

  /**
   * GetUserByIdQueryHandler.Handle: no projection for an unknown user; otherwise the user's
   * projection with Roles set to the user's role names; any exception gives no projection.
   */
  function GetUserById(lookup: Outcome<Option<ApplicationUser>>, roles: Outcome<seq<string>>): (r: Option<UserDto>)
    ensures r.Some? <==> lookup.Returned? && lookup.value.Some? && roles.Returned?
    ensures r.Some? ==>
              var user := lookup.value.value;
              && r.value.roles == roles.value
              && r.value.(roles := []) == MapUserToDto(user)
              && DtoFullName(r.value) == FullName(user)
  {
    match lookup
    case Threw(_) => None
    case Returned(found) =>
      match found
      case None => None
      case Some(user) =>
        match roles
        case Threw(_) => None
        case Returned(names) => Some(MapUserToDto(user).(roles := names))
  }

  /**
   * Against the store: a projection exists exactly for a known id (inactive users included), and
   * its roles are the names of the roles the user is linked to.
   */
  lemma GetUserByIdFromStore(db: Db, userId: string)
    ensures var r := GetUserById(Returned(UserRepository.GetByIdAsync(db, userId)), Returned(GetUserRolesAsync(db, userId)));
            && (r.Some? <==> exists u :: u in db.users && u.id == userId)
            && (r.Some? ==> r.value.id == userId)
            && (r.Some? ==> forall n :: n in r.value.roles <==>
                              exists ro :: ro in db.roles && ro.name == n && UserRole(userId, ro.id) in db.links)
  {
  }
}
