/** Google login: find the user by the verified email, or create one from the profile. */
module Auth {
  import opened Tables
  import opened Store

  const NoGoogleUser := "No user from Google"
  const LoginSuccess := "Google Login Success!"

  /** The profile the identity provider hands over; any field may be missing. */
  datatype GoogleProfile = GoogleProfile(email: Option<string>, name: Option<string>, picture: Option<string>)

  datatype LoginResult = LoginResult(message: string, user: User)

  /** The email of the profile, when there is a profile and its email is a non-empty string. */
  function ProfileEmail(reqUser: Option<GoogleProfile>): (r: Option<string>)
    ensures r.Some? <==> reqUser.Some? && reqUser.value.email.Some? && reqUser.value.email.value != ""
    ensures r.Some? ==> r.value != "" && r == reqUser.value.email
  {
    if reqUser.Some? && reqUser.value.email.Some? && reqUser.value.email.value != "" then reqUser.value.email
    else None
  }

  /** `email.split('@')[0]`: the email up to, not including, its first '@'. */
  function LocalPart(email: string): (r: string)
    ensures r <= email
    ensures '@' !in r
    ensures r == email || email[|r|] == '@'
  {
    if email == [] || email[0] == '@' then [] else [email[0]] + LocalPart(email[1..])
  }

  /** `name ?? email.split('@')[0]`: a present name, even an empty one, wins. */
  function Nickname(name: Option<string>, email: string): (r: string)
    ensures name.Some? ==> r == name.value
    ensures name.None? ==> r <= email && '@' !in r && (r == email || email[|r|] == '@')
  {
    if name.Some? then name.value else LocalPart(email)
  }

  /** `value || null`: a missing or empty string is stored as null. */
  function OrNull(value: Option<string>): (r: Option<string>)
    ensures r.Some? <==> value.Some? && value.value != ""
    ensures r.Some? ==> r == value
  {
    if value.Some? && value.value != "" then value else None
  }

  /** The user a first login with `profile` and email `email` creates, under the generated id `id`. */
  function NewUser(id: Id, email: string, profile: GoogleProfile): (u: User)
    ensures u.id == id && u.email == email
    ensures u.nickname == Some(Nickname(profile.name, email))
    ensures u.name == OrNull(profile.name) && u.image == OrNull(profile.picture)
  {
    User(id, email, Some(Nickname(profile.name, email)), OrNull(profile.name), OrNull(profile.picture))
  }

  /** An empty name yields the empty nickname but a null stored name. */
  lemma EmptyNameKeepsEmptyNickname(email: string, picture: Option<string>, id: Id)
    ensures NewUser(id, email, GoogleProfile(Some(email), Some(""), picture)).nickname == Some("")
    ensures NewUser(id, email, GoogleProfile(Some(email), Some(""), picture)).name == None
  {
  }

  class AuthService {
    const prisma: Database

    constructor (prisma: Database)
      ensures this.prisma == prisma
    {
      this.prisma := prisma;
    }

    /** Logs in the user the identity provider vouched for, creating it on the first login. */
    method GoogleLogin(reqUser: Option<GoogleProfile>) returns (r: Result<LoginResult>)
      requires prisma.Valid()
      modifies prisma`users
      ensures prisma.Valid()
      ensures ProfileEmail(reqUser).None? ==> r == Err(Unauthorized(NoGoogleUser))
      ensures r.Err? ==> ProfileEmail(reqUser).None?
      ensures r.Ok? ==> r.value.message == LoginSuccess && r.value.user.email == ProfileEmail(reqUser).value
      ensures r.Ok? ==> Lookup(prisma.users, UserEmail, r.value.user.email) == Some(r.value.user)
      ensures ProfileEmail(reqUser).Some? && Lookup(old(prisma.users), UserEmail, ProfileEmail(reqUser).value).Some? ==>
                r == Ok(LoginResult(LoginSuccess, Lookup(old(prisma.users), UserEmail, ProfileEmail(reqUser).value).value))
      ensures r.Err? || Lookup(old(prisma.users), UserEmail, r.value.user.email).Some? ==>
                prisma.users == old(prisma.users)
      ensures r.Ok? && Lookup(old(prisma.users), UserEmail, r.value.user.email).None? ==>
                && !HasUser(old(prisma.users), r.value.user.id)
                && r.value.user == NewUser(r.value.user.id, r.value.user.email, reqUser.value)
                && prisma.users == old(prisma.users) + [r.value.user]
    {
      var email := ProfileEmail(reqUser);
      if email.None? {
        return Err(Unauthorized(NoGoogleUser));
      }
      var user := Lookup(prisma.users, UserEmail, email.value);
      if user.None? {
        FreshKeyExists(prisma.users, UserId);
        var id :| Lookup(prisma.users, UserId, id).None?;
        var created := NewUser(id, email.value, reqUser.value);
        AppendUnique(prisma.users, UserId, created);
        AppendUnique(prisma.users, UserEmail, created);
        LookupAppended(prisma.users, UserEmail, created);
        prisma.users := prisma.users + [created];
        user := Some(created);
      }
      return Ok(LoginResult(LoginSuccess, user.value));
    }
  }

  /** Logging in twice with the same profile returns the same user both times,
      and the second login creates nothing. */
  method LoginTwice(service: AuthService, reqUser: Option<GoogleProfile>)
    returns (first: Result<LoginResult>, second: Result<LoginResult>, ghost afterFirst: seq<User>)
    requires service.prisma.Valid()
    modifies service.prisma`users
    ensures service.prisma.Valid()
    ensures first.Ok? <==> second.Ok?
    ensures first.Ok? ==> second == first
    ensures service.prisma.users == afterFirst
    ensures first.Err? ==> afterFirst == old(service.prisma.users)
    ensures first.Ok? ==> afterFirst == old(service.prisma.users)
                          || afterFirst == old(service.prisma.users) + [first.value.user]
  {
    first := service.GoogleLogin(reqUser);
    afterFirst := service.prisma.users;
    second := service.GoogleLogin(reqUser);
  }
}
