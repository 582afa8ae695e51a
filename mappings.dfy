/** MappingProfile: the three AutoMapper maps, as total functions on records. */
module Mappings {
  import opened Common
  import opened Persistence
  import opened Users
  import opened Dtos

  /** ApplicationUser to UserDto: member-wise copy, Roles left empty. */
  function MapUserToDto(u: ApplicationUser): (d: UserDto)
    ensures d.roles == []
    ensures d.id == u.id && d.userName == u.userName && d.email == u.email && d.address == u.address
    ensures d.firstName == u.firstName && d.lastName == u.lastName
    ensures d.createdAt == u.life.createdAt && d.lastLoginAt == u.lastLoginAt && d.isActive == u.life.isActive
    ensures DtoFullName(d) == FullName(u)
  {
    UserDto(u.id, u.userName, u.email, u.firstName, u.lastName, u.address,
            u.life.createdAt, u.lastLoginAt, u.life.isActive, [])
  }

  /**
   * RegisterUserDto to ApplicationUser: a new user (the framework's generated id and stamps)
   * with the five form fields copied, CreatedAt now and IsActive true; every ignored member
   * keeps its initial value.
   */
  function MapRegisterUserDto(dto: RegisterUserDto, gen: Generated, now: Instant): (u: ApplicationUser)
    ensures u.userName == Some(dto.userName) && u.email == Some(dto.email)
    ensures u.firstName == dto.firstName && u.lastName == dto.lastName && u.address == dto.address
    ensures u.life == Lifecycle(now, None, true)
    ensures u.id == gen.id && !u.emailConfirmed && u.lastLoginAt.None?
    ensures u.normalizedUserName.None? && u.normalizedEmail.None?
    ensures u.credentials == NewApplicationUser(gen, now).credentials
  {
    var blank := NewApplicationUser(gen, now);
    blank.(userName := Some(dto.userName), email := Some(dto.email),
           firstName := dto.firstName, lastName := dto.lastName, address := dto.address,
           life := blank.life.(createdAt := now, isActive := true))
  }

  /** A registered user, once saved as an insert, is active, unstamped and created at the save. */
  lemma RegisteredUserSaved(dto: RegisterUserDto, gen: Generated, mapped: Instant, saved: Instant)
    ensures Saved(Added, MapRegisterUserDto(dto, gen, mapped), saved).life == Lifecycle(saved, None, true)
  {
  }

  /** UpdateUserDto onto an existing user: FirstName, LastName, Address, IsActive and Email, nothing else. */
  function MapUpdateUserDto(dto: UpdateUserDto, target: ApplicationUser): (u: ApplicationUser)
    ensures u.firstName == dto.firstName && u.lastName == dto.lastName && u.address == dto.address
    ensures u.email == Some(dto.email) && u.life.isActive == dto.isActive
    // every other member of the target is kept
    ensures u.(firstName := target.firstName, lastName := target.lastName, address := target.address,
               email := target.email, life := u.life.(isActive := target.life.isActive)) == target
  {
    target.(firstName := dto.firstName, lastName := dto.lastName, address := dto.address,
            email := Some(dto.email), life := target.life.(isActive := dto.isActive))
  }

  /** Applying the same update twice is applying it once. */
  lemma MapUpdateIdempotent(dto: UpdateUserDto, target: ApplicationUser)
    ensures MapUpdateUserDto(dto, MapUpdateUserDto(dto, target)) == MapUpdateUserDto(dto, target)
  {
  }

  /** A deactivating update of an unstamped user, once saved, carries the deletion stamp of the save. */
  lemma {:induction false} DeactivatingUpdateIsStamped(dto: UpdateUserDto, target: ApplicationUser, now: Instant)
    requires !dto.isActive && target.life.deletedAt.None?
    ensures Saved(Modified, MapUpdateUserDto(dto, target), now).life == target.life.(isActive := false, deletedAt := Some(now))
  {
    var u := MapUpdateUserDto(dto, target);
    assert u.life == target.life.(isActive := false);
    var r := Intercept(Entry(Modified, WithLifecycle(u.life, ())), now);
    assert r.entity.life == u.life.(deletedAt := Some(now));
  }
}
