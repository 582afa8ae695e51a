/** The request and response records of the identity API. */
module Dtos {
  import opened Common
  import opened Users

  /** RegisterUserDto: the registration form. */
  datatype RegisterUserDto = RegisterUserDto(
    userName: string, email: string, password: string, confirmPassword: string,
    firstName: string, lastName: string, address: Option<string>)

  /** LoginDto. */
  datatype LoginDto = LoginDto(userName: string, password: string, rememberMe: bool)

  /** PasswordChangeDto. */
  datatype PasswordChangeDto = PasswordChangeDto(
    userId: string, currentPassword: string, newPassword: string, confirmPassword: string)

  /** UpdateUserDto: the profile form. */
  datatype UpdateUserDto = UpdateUserDto(
    id: string, firstName: string, lastName: string, email: string, address: Option<string>, isActive: bool)

  /** PasswordResetDto: the reset form of the controller. */
  datatype PasswordResetDto = PasswordResetDto(email: string, token: string, newPassword: string)

  /** UserDto: the projection of a user that the API returns. */
  datatype UserDto = UserDto(
    id: string, userName: Option<string>, email: Option<string>, firstName: string, lastName: string,
    address: Option<string>, createdAt: Instant, lastLoginAt: Option<Instant>, isActive: bool,
    roles: seq<string>)

  /** UserDto.FullName: the same trim rule as ApplicationUser.FullName. */
  function DtoFullName(d: UserDto): string
  {
    DisplayName(d.firstName, d.lastName)
  }
}
