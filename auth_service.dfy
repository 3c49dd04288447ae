/** AuthService.login: the three-way decision between not found, bad password and a token. */
module Auth {
  import opened Wrappers
  import opened Domain
  import opened Crypto
  import opened Prisma
  import opened Users

  const UserNotFound := "User not found."
  const InvalidPassword := "Invalid password."

  /**
   * login(email, password) against the User table `users` at time `now`:
   * the signed access token, or the exception login throws.
   */
  function Login(users: seq<User>, email: string, password: string, bcrypt: Bcrypt, jwt: Jwt, now: Timestamp)
    : (r: Result<string, Exception>)
    ensures r == Failure(NotFoundException(UserNotFound)) <==> forall u :: u in users ==> u.email != email
    ensures r.Failure? ==> r.error in {NotFoundException(UserNotFound), UnauthorizedException(InvalidPassword)}
    ensures r == Failure(UnauthorizedException(InvalidPassword)) ==>
              exists u :: u in users && u.email == email && !bcrypt.compare(password, u.password)
    ensures r.Success? ==>
              exists u :: u in users && u.email == email && bcrypt.compare(password, u.password)
                          && r.value == Sign(jwt, u.id, now)
  {
    match FindUniqueUser(users, ByEmail(email))
    case None => Failure(NotFoundException(UserNotFound))
    case Some(user) =>
      if !bcrypt.compare(password, user.password) then Failure(UnauthorizedException(InvalidPassword))
      else Success(Sign(jwt, user.id, now))
  }

  /**
   * For a registered email, login fails with "Invalid password." exactly when
   * the password does not match that user's digest, and otherwise issues a
   * token whose `id` claim is that user's id and which expires five minutes on.
   */
  lemma LoginForRegisteredEmail(users: seq<User>, user: User, password: string, bcrypt: Bcrypt, jwt: Jwt,
                                now: Timestamp)
    requires UserTableValid(users)
    requires user in users
    requires RoundTrips(jwt)
    ensures var r := Login(users, user.email, password, bcrypt, jwt, now);
            && (r == Failure(UnauthorizedException(InvalidPassword)) <==> !bcrypt.compare(password, user.password))
            && (r.Success? <==> bcrypt.compare(password, user.password))
            && (r.Success? ==> jwt.decode(r.value) == Some(Claims(user.id, now, now + ExpiresIn)))
  {
  }

  /** Registering and then logging in with the same email and password succeeds, with the new user's id as claim. */
  lemma SignUpThenLogin(users: seq<User>, email: string, password: string, bcrypt: Bcrypt, salt: Salt,
                        id: UserId, createdAt: Timestamp, jwt: Jwt, now: Timestamp)
    requires Sound(bcrypt) && RoundTrips(jwt)
    requires UserTableValid(users)
    requires forall u :: u in users ==> u.id != id
    requires CreateUserOutcome(users, email, password, bcrypt, salt, id, createdAt, None).0.Success?
    ensures var table := CreateUserOutcome(users, email, password, bcrypt, salt, id, createdAt, None).1;
            var r := Login(table, email, password, bcrypt, jwt, now);
            r.Success? && jwt.decode(r.value) == Some(Claims(id, now, now + ExpiresIn))
  {
  }
}
