# Identity subsystem model

This project models the user-management core of an ASP.NET Core Identity application:

- **ApplicationDbContext's soft-delete pass.** It runs before every save. An insert is stamped and forced active. A physical delete becomes a deactivating, stamped modification. A deactivating update gets a deletion stamp if it has none.
- **The users and their lookups.** `ApplicationUser` implements the lifecycle fields of `IBaseEntity`. The user and role repositories provide the lookups, lists and counts, where everything except the single-row lookups sees active users only.
- **`IdentityService`.** It wraps the framework's user manager. It has a soft delete that never removes a row, and it shapes framework results into `(Success, Error)` pairs.
- **`DatabaseInitializer`.** It seeds the roles Admin, User and Manager, then a confirmed administrator account in the Admin role.
- **The four FluentValidation validators.** They report every failing rule, in declaration order.
- **Two command handlers and one query handler.** These are register, login and get-user-by-id.
- **The AutoMapper profile.**
- **The decision logic of `IdentityController`'s password and profile endpoints.**

The framework itself is represented by parameters. Its password checks, token handling, e-mail syntax check, policy checks and save verdicts appear as oracle functions or `IdentityResult` values.

The store is a class `Store.IdentityStore` holding a value `Db`:

- users and roles are sequences in store order;
- the user–role association is a set;
- the framework's writes are methods that change it.

The soft-delete pass is an in-place loop over an array of change-tracker entries. `Persistence.UpdateSoftDeleteStatuses` is proved equal to the function `Persistence.SoftDeletePass`, and every user row the store writes goes through it. Pure logic is written as functions:

- lookups;
- validators;
- mappings;
- handler and controller decisions.

Lemmas relate those functions to one another, for example:

- the validators to their rule lists;
- the seeding to its idempotence;
- profile edits to e-mail uniqueness;
- the reset endpoints to their "does not reveal accounts" property.

Four behaviours of the code worth knowing:

- **Re-stamping on delete.** `DeleteUserAsync` overwrites `DeletedAt` with the current time even for a user already deleted.
- **Lifecycle fields not tied together.** Nothing in the code keeps `IsActive == false` and `DeletedAt != null` equivalent, so only the directions the soft-delete pass guarantees are proved (`Persistence.Settled`).
- **Dead mismatch branch.** The register handler's own password/confirmation check can never reject a request. The registration validator already reports `Passwords do not match`, so that branch is dead.
- **Trailing line feed in user names.** The user-name pattern ends in `$`, which in .NET also matches before a final line feed. The registration validator is modelled once, with a parameter `Anchor`: `DollarAnchor` is the pattern as written and is what the register handler uses; `EndAnchor` is the pattern its message describes (see Findings). Such a name then passes validation but does not become an account: the framework's `AllowedUserNameCharacters` (Infra/DependencyInjection.cs:70-71) has no line feed, so `CreateAsync` refuses it with its own invalid-user-name error instead of the validator's message. In the model that refusal is the creation oracle's.

## Model

| member | source | states |
|---|---|---|
| Common.Join | Infra/Identity/Service/IdentityService.cs:87 | the first part is a prefix of the joined string; its length is the parts' lengths plus one separator between each pair; no parts give "" |
| Common.JoinSnoc | Infra/Identity/Service/IdentityService.cs:87 | joining one more part appends the separator and that part |
| Common.Trim | Domain/Models/ApplicationUser.cs:28 | the result is a slice of the input whose first and last characters are not white space |
| Common.TrimEmptyIffWhiteSpaceOnly | Domain/Models/ApplicationUser.cs:28 | trimming gives "" exactly when the input is empty or all white space |
| Common.TrimIdempotent | Domain/Models/ApplicationUser.cs:28 | trimming a trimmed string changes nothing |
| Common.Filter | Infra/Identity/Repository/UserRepository.cs:37 | `Where`: the result holds exactly the elements satisfying the predicate, and is no longer than the input |
| Common.CountIsFilterLength | Infra/Identity/Repository/UserRepository.cs:63 | `CountAsync(p)` equals the length of `Where(p)` |
| Common.FilterPartition | Infra/Identity/Repository/UserRepository.cs:35-69 | filtering by a predicate and by its negation splits the input as a multiset |
| Persistence.NewLifecycle | Domain/Common/BaseEntity.cs:5-7 | a new entity is active, unstamped and created now |
| Persistence.Intercept | Infra/Persistence/ApplicationDbContext.cs:47-71 | each case of the switch: inserts stamped and forced active; a deactivating update stamped only when unstamped; a delete turned into a deactivating, stamped update; other entries and entities without lifecycle untouched; the result is always settled |
| Persistence.SoftDeletePass | Infra/Persistence/ApplicationDbContext.cs:45-73 | the pass maps every entry through the per-entry rule, keeps the order, and leaves no lifecycle entry deleted or inactive-and-unstamped |
| Persistence.InterceptIdempotent | Infra/Persistence/ApplicationDbContext.cs:45-73 | running the pass twice at the same instant equals running it once |
| Persistence.PassKeepsPendingWrites | Infra/Persistence/ApplicationDbContext.cs:64-68 | converting deletes into modifications keeps the number of rows the base save writes |
| Persistence.UpdateSoftDeleteStatuses | Infra/Persistence/ApplicationDbContext.cs:45-73 | the in-place loop leaves the array equal to the pass over its old contents |
| Persistence.SaveChanges | Infra/Persistence/ApplicationDbContext.cs:33-37 | the pass runs first; the count returned is the number of pending writes afterwards |
| Persistence.SaveChangesAsync | Infra/Persistence/ApplicationDbContext.cs:39-43 | the same as the synchronous save |
| Users.NewApplicationUser | Domain/Models/ApplicationUser.cs:11-26 | a new user has the generated id, empty names, no address, no e-mail, and is active, unstamped and created now |
| Users.DisplayName | Domain/Models/ApplicationUser.cs:28 | `FullName` has no white space at either end, and is "" for empty names |
| Users.DisplayNameOfTrimmedNames | Domain/Models/ApplicationUser.cs:28 | names without white space at their outer ends come out as first + " " + last |
| Store.FindUser | Infra/Identity/Repository/UserRepository.cs:20-33 | a lookup finds a stored user that matches, and finds none exactly when no stored user matches |
| Store.FindRole | Infra/Identity/Repository/RoleRepository.cs:25-33 | the same for roles |
| Store.Names | Infra/Identity/Repository/RoleRepository.cs:71 | one name per role, position by position |
| Store.RoleNamesOf | Infra/Identity/Service/IdentityService.cs:56 | `GetRolesAsync`: a name is listed exactly when a linked role has it |
| Store.IsInRoleIffNamed | Infra/Identity/Repository/RoleRepository.cs:82 | with unique role names, `IsInRoleAsync` agrees with membership in `GetRolesAsync` |
| Store.UsersInRole | Infra/Identity/Repository/UserRepository.cs:42 | `GetUsersInRoleAsync`: exactly the stored users in the role; none when the role does not exist |
| Store.Replace | Infra/Identity/Service/IdentityService.cs:95 | an update writes the new value over every row with its id and leaves all other rows as they were |
| Store.FindAfterReplace | Infra/Identity/Service/IdentityService.cs:95 | a user found by id before an update reads back as the written value |
| Store.IdentityStore.UpdateAsync | Infra/Identity/Service/IdentityService.cs:95 | on success the row is replaced by the user as the soft-delete pass saves a Modified entry; on failure nothing changes |
| Store.IdentityStore.CreateAsync | Infra/Identity/Service/IdentityService.cs:84 | on success the user is appended as the pass saves an Added entry; on failure nothing changes |
| Store.IdentityStore.CreateRoleAsync | Infra/Persistence/DatabaseInitializer.cs:50 | the role is appended |
| Store.IdentityStore.AddToRoleAsync | Infra/Persistence/DatabaseInitializer.cs:78 | throws, changing nothing, for a missing role; otherwise links the user; it succeeds only when the link is new |
| DatabaseInitializer.SeedRoleExtends | Infra/Persistence/DatabaseInitializer.cs:45-52 | one more turn of the loop keeps users and links, appends roles only, and makes the next name exist |
| DatabaseInitializer.SeedRoles | Infra/Persistence/DatabaseInitializer.cs:41-53 | after seeding, every listed name has a role; users and links are unchanged; new roles come after the old ones, each for a listed name that had no role before |
| DatabaseInitializer.SeedExistingIsNoop | Infra/Persistence/DatabaseInitializer.cs:47-51 | seeding names that all exist changes nothing |
| DatabaseInitializer.SeedRolesIdempotent | Infra/Persistence/DatabaseInitializer.cs:41-53 | seeding twice equals seeding once |
| DatabaseInitializer.SeedRolesStep | Infra/Persistence/DatabaseInitializer.cs:45-52 | the prefix of length i+1 is one turn after the prefix of length i |
| DatabaseInitializer.SeedRolesAsync | Infra/Persistence/DatabaseInitializer.cs:41-53 | the loop leaves the store equal to seeding Admin, User and Manager in order |
| DatabaseInitializer.AdminUser | Infra/Persistence/DatabaseInitializer.cs:64-73 | the administrator has user name "admin", e-mail "admin@example.com", a confirmed e-mail, the names System Administrator, and is active, unstamped and created now |
| DatabaseInitializer.SeedAdminUserAsync | Infra/Persistence/DatabaseInitializer.cs:55-81 | no write when the e-mail is taken or creation fails; otherwise the administrator is appended and linked to Admin, or the call throws when Admin is missing |
| DatabaseInitializer.InitializeDatabaseAsync | Infra/Persistence/DatabaseInitializer.cs:11-39 | roles are seeded before the administrator, so all three roles exist and a newly created administrator is confirmed, active and in the Admin role |
| UserRepository.GetByIdAsync | Infra/Identity/Repository/UserRepository.cs:20-23 | finds a stored user with that id, active or not; none exactly when no row has it |
| UserRepository.GetByEmailAsync | Infra/Identity/Repository/UserRepository.cs:25-28 | the same by e-mail |
| UserRepository.GetByUserNameAsync | Infra/Identity/Repository/UserRepository.cs:30-33 | the same by user name |
| UserRepository.GetAllAsync | Infra/Identity/Repository/UserRepository.cs:35-38 | exactly the active users |
| UserRepository.GetByRoleAsync | Infra/Identity/Repository/UserRepository.cs:40-44 | exactly the active users in the role |
| UserRepository.ExistsAsync | Infra/Identity/Repository/UserRepository.cs:46-49 | true exactly when some user listed by GetAllAsync has the id |
| UserRepository.ExistsByEmailAsync | Infra/Identity/Repository/UserRepository.cs:51-54 | true exactly when some user listed by GetAllAsync has the e-mail |
| UserRepository.ExistsByUserNameAsync | Infra/Identity/Repository/UserRepository.cs:56-59 | true exactly when some user listed by GetAllAsync has the user name |
| UserRepository.GetUserCountAsync | Infra/Identity/Repository/UserRepository.cs:61-64 | the count is the length of GetAllAsync |
| UserRepository.GetInactiveUsersAsync | Infra/Identity/Repository/UserRepository.cs:66-69 | exactly the inactive users |
| UserRepository.GetUsersCreatedAfterAsync | Infra/Identity/Repository/UserRepository.cs:71-74 | exactly the active users created at or after the date (inclusive bound) |
| UserRepository.ActiveInactivePartition | Infra/Identity/Repository/UserRepository.cs:35-69 | active and inactive lists together are the whole store as a multiset, and share no element |
| UserRepository.LookupSeesWhatExistsHides | Infra/Identity/Repository/UserRepository.cs:20-49 | a soft-deleted user is still found by id while ExistsAsync denies it |
| RoleRepository.GetByIdAsync | Infra/Identity/Repository/RoleRepository.cs:25-28 | finds a stored role with that id; none exactly when there is none |
| RoleRepository.GetByNameAsync | Infra/Identity/Repository/RoleRepository.cs:30-33 | the same by name |
| RoleRepository.ExistsAsync | Infra/Identity/Repository/RoleRepository.cs:40-44 | true exactly when some role has the id |
| RoleRepository.ExistsByNameAsync | Infra/Identity/Repository/RoleRepository.cs:46-50 | true exactly when some role has the name |
| RoleRepository.GetRoleCountAsync | Infra/Identity/Repository/RoleRepository.cs:52-55 | the number of roles GetAllAsync lists |
| RoleRepository.GetRolesByUserAsync | Infra/Identity/Repository/RoleRepository.cs:57-67 | empty for an unknown user; otherwise exactly the roles whose name is one of the user's role names |
| RoleRepository.GetRoleNamesAsync | Infra/Identity/Repository/RoleRepository.cs:69-72 | the roles' names, one per role, in order |
| RoleRepository.IsRoleAssignedToUserAsync | Infra/Identity/Repository/RoleRepository.cs:74-83 | false for an unknown user; otherwise whether the user is in the role |
| IdentityService.ShapeResult | Infra/Identity/Service/IdentityService.cs:84-90 | success mirrors the framework result; exactly a failure carries an error; that error starts with the first description and is it when the description is alone |
| IdentityService.ShapeResultMoreErrors | Infra/Identity/Service/IdentityService.cs:87 | each further description lengthens the error by ", " and itself |
| IdentityService.GetUserRolesAsync | Infra/Identity/Service/IdentityService.cs:48-57 | empty for an unknown id; otherwise a name is listed exactly when a role of that name is linked to the user |
| IdentityService.IsUserInRoleAsync | Infra/Identity/Service/IdentityService.cs:43-46 | false for an unknown id |
| IdentityService.UserInRoleIffListed | Infra/Identity/Service/IdentityService.cs:43-57 | with unique role names, IsUserInRoleAsync holds exactly when GetUserRolesAsync lists the role |
| IdentityService.ValidateUserAsync | Infra/Identity/Service/IdentityService.cs:59-77 | accepts exactly an existing, active user whom the framework's sign-in check (`CheckPasswordSignInAsync`: password, confirmed e-mail, lockout) accepts; a refusal writes nothing; an acceptance stores LastLoginAt = now when the update succeeds, and the update's result does not change the answer |
| IdentityService.CreateUserAsync | Infra/Identity/Service/IdentityService.cs:79-91 | the shaped framework result; on success the user is saved as an insert |
| IdentityService.UpdateUserAsync | Infra/Identity/Service/IdentityService.cs:93-102 | the shaped framework result; on success the row is saved as a modification |
| IdentityService.SoftDeleted | Infra/Identity/Service/IdentityService.cs:112-114 | the user becomes inactive and stamped now; nothing else changes |
| IdentityService.DeleteUserAsync | Infra/Identity/Service/IdentityService.cs:104-123 | an unknown id gives (false, "User not found") with no write; otherwise the row count is kept and, on success, the row reads back soft-deleted |
| IdentityService.SoftDeletedSavesUnchanged | Infra/Identity/Service/IdentityService.cs:112-116 | the soft-delete pass keeps the stamp DeleteUserAsync wrote |
| IdentityService.ChangePasswordAsync | Infra/Identity/Service/IdentityService.cs:125-144 | an unknown id fails with "User not found"; otherwise the framework's result shaped as by CreateUserAsync: success exactly when the framework succeeds, and on failure its descriptions joined by ", " |
| IdentityService.ResetPasswordAsync | Infra/Identity/Service/IdentityService.cs:146-165 | an unknown id fails with "User not found"; otherwise the token reset's result, shaped the same way |
| IdentityService.GeneratePasswordResetTokenAsync | Infra/Identity/Service/IdentityService.cs:167-176 | throws exactly for an unknown id; otherwise the framework's token for that user |
| IdentityService.ConfirmEmailAsync | Infra/Identity/Service/IdentityService.cs:178-188 | false for an unknown id; otherwise the framework's verdict |
| IdentityService.GenerateEmailConfirmationTokenAsync | Infra/Identity/Service/IdentityService.cs:190-199 | throws exactly for an unknown id; otherwise the framework's token |
| Mappings.MapUserToDto | Application/Common/Mappings/MappingProfile.cs:12-13 | member-wise copy of all nine members (id, user name, e-mail, first and last name, address, CreatedAt, LastLoginAt, IsActive) with Roles empty; hence the projection's FullName equals the user's |
| Mappings.MapRegisterUserDto | Application/Common/Mappings/MappingProfile.cs:15-37 | the five form fields are copied, CreatedAt is now, IsActive is true, and every ignored member keeps its initial value |
| Mappings.RegisteredUserSaved | Application/Common/Mappings/MappingProfile.cs:21-22 | once saved as an insert, a registered user is active, unstamped and created at the save |
| Mappings.MapUpdateUserDto | Application/Common/Mappings/MappingProfile.cs:39-45 | only FirstName, LastName, Address, IsActive and Email are written; every other member is kept |
| Mappings.MapUpdateIdempotent | Application/Common/Mappings/MappingProfile.cs:39-45 | applying the same update twice equals applying it once |
| Mappings.DeactivatingUpdateIsStamped | Application/Common/Mappings/MappingProfile.cs:43 | a deactivating update of an unstamped user is saved with the deletion stamp of the save |
| ValidationRules.Utf16Length | Application/Identity/Validators/RegisterUserDtoValidator.cs:13-16 | a length counts UTF-16 code units: between the number of characters and twice it, and exactly it for characters of the basic plane |
| ValidationRules.Messages | Application/Identity/Commands/RegisterUser/RegisterUserCommandHandler.cs:45 | one message per failure, in order |
| ValidationRules.Failing | Application/Identity/Validators/RegisterUserDtoValidator.cs:10-58 | no failures exactly when every rule passes; at most one failure per rule |
| ValidationRules.FailingMembers | Application/Identity/Validators/RegisterUserDtoValidator.cs:10-58 | a failure is reported exactly when a failing rule carries it |
| ValidationRules.FailingAppend | Application/Identity/Validators/RegisterUserDtoValidator.cs:10-58 | the failures of consecutive rule lists are the concatenation of theirs (order of declaration) |
| ValidationRules.FailingAt | Application/Identity/Validators/RegisterUserDtoValidator.cs:10-58 | a rule with its own message is reported exactly when it fails |
| ValidationRules.PasswordErrors | Application/Identity/Validators/RegisterUserDtoValidator.cs:26-38 | no errors exactly when the password meets the policy |
| ValidationRules.PasswordLengthFailures | Application/Identity/Validators/RegisterUserDtoValidator.cs:27-30 | "required" is reported exactly for a blank password, "at least 8" exactly under 8 code units |
| ValidationRules.PasswordClassFailures | Application/Identity/Validators/RegisterUserDtoValidator.cs:31-38 | each character-class message is reported exactly when the class is missing |
| ValidationRules.NameErrors | Application/Identity/Validators/RegisterUserDtoValidator.cs:44-54 | no errors exactly for a non-blank name within the maximum |
| ValidationRules.NameFailures | Application/Identity/Validators/RegisterUserDtoValidator.cs:44-54 | "required" exactly when blank, "too long" exactly over the maximum |
| ValidationRules.OptionalLengthErrors | Application/Identity/Validators/RegisterUserDtoValidator.cs:56-58 | a missing address passes; a present one fails exactly when over the maximum |
| ValidationRules.EmailErrors | Application/Identity/Validators/RegisterUserDtoValidator.cs:20-24 | no errors exactly for a non-blank e-mail the syntax check accepts |
| ValidationRules.EmailFailures | Application/Identity/Validators/RegisterUserDtoValidator.cs:20-24 | "required" exactly when blank, "valid email" exactly when the syntax check refuses |
| ValidationRules.ComparisonErrors | Application/Identity/Validators/RegisterUserDtoValidator.cs:40-42 | the message is reported exactly when the comparison fails |
| RegisterValidation.UserNamePatternAcceptsTrailingNewline | Application/Identity/Validators/RegisterUserDtoValidator.cs:17 | the pattern as written accepts "abc\n"; the intended one refuses it |
| RegisterValidation.UserNamePatternDiffersOnlyByNewline | Application/Identity/Validators/RegisterUserDtoValidator.cs:17 | the intended pattern accepts exactly what the written one accepts minus names ending in a line feed |
| RegisterValidation.UserNameErrors | Application/Identity/Validators/RegisterUserDtoValidator.cs:10-18 | no errors exactly for a non-blank name of 3 to 50 code units that the pattern matches: with `DollarAnchor` letters, digits, "_", "." and "-" optionally followed by one final line feed, as written; with `EndAnchor` those characters only, as intended |
| RegisterValidation.UserNameFailures | Application/Identity/Validators/RegisterUserDtoValidator.cs:10-18 | each of the four messages exactly when its rule fails, the character message over the chosen anchor |
| RegisterValidation.ValidateRegistration | Application/Identity/Validators/RegisterUserDtoValidator.cs:10-58 | no errors exactly when every rule of the form holds; with `DollarAnchor` this is the validator as written |
| RegisterValidation.RegistrationInRuleOrder | Application/Identity/Validators/RegisterUserDtoValidator.cs:10-58 | the errors are the failing rules in declaration order, for either anchor |
| RegisterValidation.RegistrationParts | Application/Identity/Validators/RegisterUserDtoValidator.cs:10-58 | the errors are the user-name, e-mail, password, confirmation, first-name, last-name and address errors, in that order |
| RegisterValidation.RegistrationReportsUserName | Application/Identity/Validators/RegisterUserDtoValidator.cs:10-18 | each failing user-name rule is reported, for either anchor |
| RegisterValidation.AnchorsAgreeWithoutFinalNewline | Application/Identity/Validators/RegisterUserDtoValidator.cs:17 | for a user name that does not end in a line feed, the validator as written and as intended give the same errors |
| RegisterValidation.Utf16LengthSnocNewline | Application/Identity/Validators/RegisterUserDtoValidator.cs:13-16 | appending a line feed adds one code unit |
| RegisterValidation.AppendedNewline | Application/Identity/Validators/RegisterUserDtoValidator.cs:10-18 | a name the intended rules accept, under 50 code units, keeps the blank and length rules with a line feed appended, and then matches the pattern as written but not as intended |
| RegisterValidation.UserNameOnlyBadCharacters | Application/Identity/Validators/RegisterUserDtoValidator.cs:10-18 | a name that passes the blank and length rules but not the pattern gets exactly the character message |
| RegisterValidation.NewlineFormAcceptedAsWritten | Application/Identity/Validators/RegisterUserDtoValidator.cs:10-58 | a form the intended validator accepts, with a line feed appended to the user name, passes the validator as written |
| RegisterValidation.NewlineFormRefusedAsIntended | Application/Identity/Validators/RegisterUserDtoValidator.cs:10-58 | the same form gets exactly the character message from the validator as intended |
| RegisterValidation.TrailingNewlineUserNamePassesValidation | Application/Identity/Validators/RegisterUserDtoValidator.cs:17 | both halves together: accepted as written, refused with exactly the character message as intended |
| RegisterValidation.RegistrationReportsPassword | Application/Identity/Validators/RegisterUserDtoValidator.cs:26-38 | each failing password rule is reported |
| RegisterValidation.RegistrationReportsProfile | Application/Identity/Validators/RegisterUserDtoValidator.cs:20-58 | each failing e-mail, confirmation, name and address rule is reported |
| PasswordChangeValidation.ValidatePasswordChange | Application/Identity/Validators/PasswordChangeDtoValidator.cs:10-32 | no errors exactly when every rule of the form holds |
| PasswordChangeValidation.PasswordChangeInRuleOrder | Application/Identity/Validators/PasswordChangeDtoValidator.cs:10-32 | the errors are the failing rules in declaration order |
| PasswordChangeValidation.PasswordChangeReports | Application/Identity/Validators/PasswordChangeDtoValidator.cs:10-32 | each failing rule is reported, including "different from current" and "do not match" |
| PasswordChangeValidation.AcceptedNewPasswordPassesRegistrationRule | Application/Identity/Validators/PasswordChangeDtoValidator.cs:14-26 | an accepted new password also passes the registration password rules |
| UpdateUserValidation.ValidateUpdateUser | Application/Identity/Validators/UpdateUserDtoValidator.cs:10-32 | no errors exactly when every rule of the form holds |
| UpdateUserValidation.UpdateUserInRuleOrder | Application/Identity/Validators/UpdateUserDtoValidator.cs:10-32 | the errors are the failing rules in declaration order |
| UpdateUserValidation.UpdateUserReports | Application/Identity/Validators/UpdateUserDtoValidator.cs:10-32 | each failing rule is reported |
| LoginValidation.ValidateLogin | Application/Identity/Validators/LoginDtoValidator.cs:10-12 | no errors exactly when both fields are non-blank; each "required" message exactly when its field is blank; no other message |
| LoginValidation.LoginAppliesNoPolicy | Application/Identity/Validators/LoginDtoValidator.cs:10-12 | every form with a non-blank user name and password passes, including a password such as "x" that fails the registration policy |
| Handlers.JoinedMessages | Application/Identity/Commands/RegisterUser/RegisterUserCommandHandler.cs:45 | the first message starts the joined text and is all of it when alone |
| Handlers.RegisterUser | Application/Identity/Commands/RegisterUser/RegisterUserCommandHandler.cs:31-80 | with the validator as written (`DollarAnchor`), succeeds exactly for a valid form whose creation returns success; an invalid form gives its joined messages without creating; a throw gives "An error occurred: " + message; a failed creation gives the error or "Failed to create user" |
| Handlers.NewlineUserNameReachesCreation | Application/Identity/Commands/RegisterUser/RegisterUserCommandHandler.cs:35-69 | a form the intended validator accepts, with a line feed appended to its user name, is not refused by validation: the answer is the creation's |
| Handlers.RegisterThroughService | Application/Identity/Commands/RegisterUser/RegisterUserCommandHandler.cs:59-69 | through the service a valid form succeeds exactly when the framework creates the user, and a failure carries the framework's descriptions |
| Handlers.LoginUser | Application/Identity/Commands/LoginUser/LoginUserCommandHandler.cs:31-69 | succeeds exactly for a valid form whose credentials check; fixed messages for refusal and success; a throw carries its message |
| Handlers.LoginRefusalIsUniform | Application/Identity/Commands/LoginUser/LoginUserCommandHandler.cs:45-53 | an unknown name, an inactive user and a wrong password get the same answer |
| Handlers.GetUserById | Application/Identity/Queries/GetUserById/GetUserByIdQueryHandler.cs:31-56 | a projection exactly when the lookup finds a user and the roles query returns; it is the mapped user with Roles set; any exception gives none |
| Handlers.GetUserByIdFromStore | Application/Identity/Queries/GetUserById/GetUserByIdQueryHandler.cs:33-46 | against the store, a projection exists exactly for a known id (inactive users included), with the user's role names |
| Controller.ForgotPassword | WebUI/WebUI/Controllers/IdentityController.cs:260-288 | an empty e-mail is refused; any other gets the same reset-link answer; a token is generated exactly for a registered e-mail |
| Controller.ForgotPasswordDoesNotRevealAccounts | WebUI/WebUI/Controllers/IdentityController.cs:268-287 | the response is the same whichever accounts exist |
| Controller.ResetPassword | WebUI/WebUI/Controllers/IdentityController.cs:136-169 | invalid model refused; unknown e-mail gets the reset-link answer; otherwise Ok exactly when the framework resets, else the joined descriptions |
| Controller.ResetUnknownEmailLooksLikeForgot | WebUI/WebUI/Controllers/IdentityController.cs:144-154 | for an unknown e-mail the answer does not depend on the framework and equals ForgotPassword's answer |
| Controller.ChangePassword | WebUI/WebUI/Controllers/IdentityController.cs:171-205 | invalid model refused; a missing or different caller id, or an unknown user, is Unauthorized; otherwise Ok exactly when the framework changes the password |
| Controller.ChangePasswordForOthersIsRefused | WebUI/WebUI/Controllers/IdentityController.cs:180-184 | a request for another user's id is Unauthorized whatever the framework would do |
| Controller.ProfileEdit | WebUI/WebUI/Controllers/IdentityController.cs:228-244 | names and address are taken from the request; a changed e-mail is set, normalised and unconfirmed, an unchanged one keeps its confirmation; everything else is kept |
| Controller.ProfileEditIdempotent | WebUI/WebUI/Controllers/IdentityController.cs:228-244 | submitting the same profile twice equals submitting it once |
| Controller.ProfileEditIgnoresIsActive | WebUI/WebUI/Controllers/IdentityController.cs:228-244 | the request's IsActive never changes the user or its saved lifecycle |
| Controller.NotTakenMeansNoOtherHolder | WebUI/WebUI/Controllers/IdentityController.cs:235-239 | with unique ids and e-mails, when the conflict check passes, no other user holds the e-mail |
| Controller.ReplaceKeepsEmailsUnique | WebUI/WebUI/Controllers/IdentityController.cs:246 | writing a row whose e-mail no other id holds keeps e-mails unique |
| Controller.ProfileEditKeepsEmailsUnique | WebUI/WebUI/Controllers/IdentityController.cs:233-246 | saving a profile that passed the conflict check keeps every e-mail distinct |
| Controller.UpdateProfile | WebUI/WebUI/Controllers/IdentityController.cs:207-258 | each refusal (invalid model, other caller, unknown user, e-mail in use) writes nothing; otherwise the edited user is saved through UpdateAsync and the answer follows its verdict |

## Left out

- Password hashing, the sign-in check, token generation and validation, security and concurrency stamps: framework internals, given as oracle parameters. The oracle `checkPassword` stands for `CheckPasswordSignInAsync`, so it also covers the refusals of unconfirmed accounts (`RequireConfirmedEmail = true`, Infra/DependencyInjection.cs:75) and locked-out accounts.
- Lockout, two-factor and phone fields: stored in `Users.Credentials` but never read by the core.
- Case-insensitive, normalised lookups: the model's lookups compare keys exactly. `NormalizeEmail` is a parameter. `Store.FindByEmail` returns the first match, where the framework's `FindByEmailAsync` (a `SingleOrDefault`) throws on two users with one e-mail; `RequireUniqueEmail = true` (Infra/DependencyInjection.cs:72) keeps e-mails unique, so that case does not arise.
- What `EmailAddress()` accepts: a parameter `isEmailAddress`.
- Asynchrony, cancellation tokens and logging: no effect on the modelled results.
- The text of framework exceptions: a thrown exception is `Threw(message)`. The service's `ArgumentException` carries "User not found" without the parameter suffix .NET adds.
- The start-up migration step, dependency injection and the EF model configuration: outside the logic modelled.
- The Blazor client and its authentication state provider: not part of this model.
- `UserStatus`: the enum is never used by the core.
- The controller's Register, Login, Logout and GetCurrentUser actions: glue around the handlers, the cookie sign-in and the claims principal.
- ModelState validation: `modelValid` is a parameter.
- Object identity and aliasing: users are values, so the controller's in-place edits are modelled as `Controller.ProfileEdit` on a value. Every `DateTimeOffset.UtcNow` in one operation is a single instant `now`.
- Null strings in DTOs: DTO strings are never null in the model; only the optional address is.
- Writes the framework makes inside the oracles (for example, `ChangePasswordAsync` updating the hash): not modelled; those operations are modelled as pure decisions.
- Store.IdentityStore.AddToRoleAsync: links the user directly. Inside the framework's `AddToRoleAsync` the user is also saved again as a Modified entry, which runs the soft-delete pass and refreshes the concurrency stamp; that re-save is not modelled.
- `DatabaseInitializer.SeedRolesAsync`: assumes `RoleManager.CreateAsync` succeeds, and ignores its result as the source does.
- `IdentityService.GetUserByIdAsync`, `GetUserByEmailAsync` and `GetUserByUserNameAsync` (Infra/Identity/Service/IdentityService.cs:28-41): one-line delegations to the user repository. The model calls `UserRepository.GetByIdAsync` and its two siblings directly.
- RoleRepository.GetAllAsync: returns the role list itself, so it has no contract of its own; the count and projection lemmas state its relation to them.
- RegisterValidation.ValidateRegistration: states only the all-or-nothing iff. Each rule's reporting is stated in one direction, "failing rule ⇒ reported", by `RegisterValidation.RegistrationReportsUserName`, `RegistrationReportsPassword` and `RegistrationReportsProfile`. The exact set of failures comes from `RegisterValidation.RegistrationInRuleOrder` together with `ValidationRules.FailingMembers`.
- PasswordChangeValidation.PasswordChangeReports: states one direction only. The exact failures come from `PasswordChangeValidation.PasswordChangeInRuleOrder` and `ValidationRules.FailingMembers`.
- UpdateUserValidation.UpdateUserReports: the same, via `UpdateUserValidation.UpdateUserInRuleOrder`.
- IdentityService.IsUserInRoleAsync: states only the unknown-id case. The agreement with the role list is `IdentityService.UserInRoleIffListed`, under unique role names.
- Handlers.RegisterUser: the handler's own password/confirmation branch is kept in the body but never taken, because the validator already refuses a mismatch.

## Findings

| source | as written | input that shows it | evidently intended | confidence | as-written member | corrected member |
|---|---|---|---|---|---|---|
| Application/Identity/Validators/RegisterUserDtoValidator.cs:17 | `^[a-zA-Z0-9_.-]+$`; in .NET, `$` also matches before a final line feed | user name "abc\n" passes the pattern, so the form passes validation; `CreateAsync` then refuses it by `AllowedUserNameCharacters` (Infra/DependencyInjection.cs:70-71), so the user sees the framework's error rather than the validator's | only letters, digits, "_", "." and "-" up to the end of the string (`\z`) | not executed | RegisterValidation.TrailingNewlineUserNamePassesValidation | RegisterValidation.AnchorsAgreeWithoutFinalNewline |
