/** Users: the user table, unique by id and by email. */
module Users {
  import opened Tables
  import opened Store

  const EmailInUse := "Email already in use"

  /** The message of the NotFoundException for an unknown user id. */
  function UserIdNotFound(id: Id): string {
    "Id가 " + id + "인 유저를 찾을 수 없습니다."
  }

  /** The fields an update may carry; an absent field is left as it is.
      `password` is accepted by the payload but is not a column of the user table. */
  datatype UserPatch = UserPatch(email: Option<string>, nickname: Option<string>, password: Option<string>)

  /** A user after applying `patch`: the fields the patch carries are overwritten, the rest kept. */
  function ApplyPatch(u: User, patch: UserPatch): (r: User)
    ensures r.id == u.id && r.name == u.name && r.image == u.image
    ensures r.email == (if patch.email.Some? then patch.email.value else u.email)
    ensures r.nickname == (if patch.nickname.Some? then patch.nickname else u.nickname)
  {
    u.(email := if patch.email.Some? then patch.email.value else u.email,
       nickname := if patch.nickname.Some? then patch.nickname else u.nickname)
  }

  /** Whether a user other than `id` already has the email `email`. */
  predicate EmailTakenByOther(users: seq<User>, id: Id, email: string) {
    exists i :: 0 <= i < |users| && users[i].id != id && users[i].email == email
  }

  /** The user identity function the listing maps over its rows. */
  function Same(u: User): User { u }

  class UsersService {
    const prisma: Database

    constructor (prisma: Database)
      ensures this.prisma == prisma
    {
      this.prisma := prisma;
    }

    /** Registers a user; the email must not be in use yet. */
    method Create(email: string, nickname: Option<string>, name: Option<string>, image: Option<string>)
      returns (r: Result<User>)
      requires prisma.Valid()
      modifies prisma`users
      ensures prisma.Valid()
      ensures r.Err? <==> Lookup(old(prisma.users), UserEmail, email).Some?
      ensures r.Err? ==> r.error == Failure(EmailInUse) && prisma.users == old(prisma.users)
      ensures r.Ok? ==>
                && r.value.email == email && r.value.nickname == nickname
                && r.value.name == name && r.value.image == image
                && !HasUser(old(prisma.users), r.value.id)
                && prisma.users == old(prisma.users) + [r.value]
    {
      var existingUser := Lookup(prisma.users, UserEmail, email);
      if existingUser.Some? {
        return Err(Failure(EmailInUse));
      }
      FreshKeyExists(prisma.users, UserId);
      var id :| Lookup(prisma.users, UserId, id).None?;
      var newUser := User(id, email, nickname, name, image);
      AppendUnique(prisma.users, UserId, newUser);
      AppendUnique(prisma.users, UserEmail, newUser);
      prisma.users := prisma.users + [newUser];
      return Ok(newUser);
    }

    /** Every user, unchanged and in storage order. */
    method FindAll() returns (users: seq<User>)
      ensures users == prisma.users
    {
      users := MapRows(prisma.users, Same);
      MapIdentity(prisma.users, Same);
    }

    /** The user with id `id`. */
    method FindOne(id: Id) returns (r: Result<User>)
      ensures r.Err? <==> !HasUser(prisma.users, id)
      ensures r.Err? ==> r.error == NotFound(UserIdNotFound(id))
      ensures r.Ok? ==> r.value in prisma.users && r.value.id == id
    {
      var user := Lookup(prisma.users, UserId, id);
      if user.None? {
        return Err(NotFound(UserIdNotFound(id)));
      }
      return Ok(user.value);
    }

    /** Applies `patch` to the user with id `id`, after checking that the user exists.
        The store validates the written fields before it checks the unique email. */
    method Update(id: Id, patch: UserPatch) returns (r: Result<User>)
      requires prisma.Valid()
      modifies prisma`users
      ensures prisma.Valid()
      ensures !HasUser(old(prisma.users), id) ==> r == Err(NotFound(UserIdNotFound(id)))
      ensures HasUser(old(prisma.users), id) && patch.password.Some? ==> r == Err(UnknownArgument("password"))
      ensures HasUser(old(prisma.users), id) && patch.password.None? && patch.email.Some?
              && EmailTakenByOther(old(prisma.users), id, patch.email.value) ==>
                r == Err(UniqueViolation)
      ensures r.Ok? <==> && HasUser(old(prisma.users), id) && patch.password.None?
                         && !(patch.email.Some? && EmailTakenByOther(old(prisma.users), id, patch.email.value))
      ensures r.Err? ==> prisma.users == old(prisma.users)
      ensures r.Ok? ==>
                && HasUser(old(prisma.users), id)
                && r.value == ApplyPatch(Lookup(old(prisma.users), UserId, id).value, patch)
                && prisma.users == ReplaceKey(old(prisma.users), UserId, id, r.value)
    {
      var found := FindOne(id);
      if found.Err? {
        return found;
      }
      if patch.password.Some? {
        return Err(UnknownArgument("password"));
      }
      var updatedUser := ApplyPatch(found.value, patch);
      if patch.email.Some? && EmailTakenByOther(prisma.users, id, patch.email.value) {
        return Err(UniqueViolation);
      }
      assert Lookup(prisma.users, UserId, id) == Some(found.value);
      ReplaceKeyUnique(prisma.users, UserId, id, updatedUser, UserId);
      ReplaceKeyUnique(prisma.users, UserId, id, updatedUser, UserEmail);
      prisma.users := ReplaceKey(prisma.users, UserId, id, updatedUser);
      return Ok(updatedUser);
    }

    /** Deletes the user with id `id`, after checking that the user exists. */
    method Remove(id: Id) returns (r: Result<User>)
      requires prisma.Valid()
      modifies prisma`users
      ensures prisma.Valid()
      ensures r.Err? <==> !HasUser(old(prisma.users), id)
      ensures r.Err? ==> r.error == NotFound(UserIdNotFound(id)) && prisma.users == old(prisma.users)
      ensures r.Ok? ==>
                && Lookup(old(prisma.users), UserId, id) == Some(r.value)
                && prisma.users == WithoutKey(old(prisma.users), UserId, id)
                && |prisma.users| == |old(prisma.users)| - 1
    {
      var found := FindOne(id);
      if found.Err? {
        return found;
      }
      var user := Lookup(prisma.users, UserId, id);
      WithoutKeyRemovesOne(prisma.users, UserId, id);
      WithoutKeyUnique(prisma.users, UserId, id, UserId);
      WithoutKeyUnique(prisma.users, UserId, id, UserEmail);
      prisma.users := WithoutKey(prisma.users, UserId, id);
      return Ok(user.value);
    }
  }
}
