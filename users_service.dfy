/** UsersService: registration and lookup of users over the User table. */
module Users {
  import opened Wrappers
  import opened Domain
  import opened Crypto
  import opened Prisma

  const DuplicateUser := "User already exists."

  /** A user row together with the ids of its posts (include: { posts: { select: { id } } }). */
  datatype UserWithPosts = UserWithPosts(user: User, posts: seq<PostId>)

  /** The error createUser throws when user.create throws `e`. */
  function Rethrow(e: Exception): (r: Exception)
    ensures r != PrismaKnownRequestError(UniqueConstraintFailed)
    ensures e == PrismaKnownRequestError(UniqueConstraintFailed) ==> r == BadRequestException(DuplicateUser)
    ensures e != PrismaKnownRequestError(UniqueConstraintFailed) ==> r == e
  {
    if e.PrismaKnownRequestError? && e.code == UniqueConstraintFailed then BadRequestException(DuplicateUser)
    else e
  }

  /**
   * What createUser returns on a table holding `users`, and what the table
   * holds afterwards. `id` and `now` are the values the database assigns;
   * `fault`, when present, is an infrastructure error raised by user.create.
   */
  function CreateUserOutcome(users: seq<User>, email: string, password: string, bcrypt: Bcrypt, salt: Salt,
                             id: UserId, now: Timestamp, fault: Option<Exception>): (outcome: (Result<User, Exception>, seq<User>))
    ensures outcome.0.Failure? ==> outcome.1 == users
    ensures outcome.0.Success? ==> outcome.0.value == User(id, email, bcrypt.hash(password, salt), now, now)
                                   && outcome.1 == users + [outcome.0.value]
    ensures outcome.0.Failure? ==> outcome.0.error != PrismaKnownRequestError(UniqueConstraintFailed)
  {
    var row := User(id, email, bcrypt.hash(password, salt), now, now);
    var attempt := if fault.Some? then Failure(fault.value) else UserCreate(users, row);
    match attempt
    case Success(table) => (Success(row), table)
    case Failure(e) => (Failure(Rethrow(e)), users)
  }

  /** The user as the JavaScript object findOne resolves to. */
  function AsObject(found: UserWithPosts): map<string, Value> {
    map[
      "id" := Str(found.user.id),
      "email" := Str(found.user.email),
      "password" := Str(found.user.password),
      "createdAt" := Date(found.user.createdAt),
      "updatedAt" := Date(found.user.updatedAt),
      "posts" := Array(PostRefs(found.posts))]
  }

  /** Each post id as the object { id }. */
  function PostRefs(ids: seq<PostId>): (refs: seq<Value>)
    ensures |refs| == |ids|
    ensures forall i :: 0 <= i < |ids| ==> refs[i] == Object(map["id" := Str(ids[i])])
  {
    if ids == [] then [] else [Object(map["id" := Str(ids[0])])] + PostRefs(ids[1..])
  }

  /** The data argument of createUser; createUser overwrites its password. */
  class UserCreateInput {
    var email: string
    var password: string

    constructor (email: string, password: string)
      ensures this.email == email && this.password == password
    {
      this.email := email;
      this.password := password;
    }
  }

  class UsersService {
    /** The User table. */
    var users: seq<User>

    ghost predicate Valid()
      reads this
    {
      UserTableValid(users)
    }

    constructor ()
      ensures Valid() && users == []
    {
      users := [];
    }

    /** findOne: the user matching `where` with the ids of the posts in `posts` it authored, or null. */
    function FindOne(where: UserWhereUnique, posts: seq<Post>): (r: Option<UserWithPosts>)
      reads this
      ensures r.None? <==> forall u :: u in users ==> !Matches(u, where)
      ensures r.Some? ==> r.value.user in users && Matches(r.value.user, where)
      ensures r.Some? ==> forall pid :: pid in r.value.posts <==>
                            exists p :: p in posts && p.author == r.value.user.id && p.id == pid
      ensures r.Some? && UniquePostIds(posts) ==>
                forall i, j ::
                  0 <= i < |r.value.posts| && 0 <= j < |r.value.posts| && r.value.posts[i] == r.value.posts[j] ==> i == j
    {
      match FindUniqueUser(users, where)
      case None => None
      case Some(user) =>
        var own := PostsWhereAuthor(posts, user.id);
        var ids := PostIds(own);
        assert UniquePostIds(posts) ==> UniquePostIds(own) by {
          if UniquePostIds(posts) { PostsWhereAuthorKeepsIdsUnique(posts, user.id); }
        }
        Some(UserWithPosts(user, ids))
    }

    /**
     * createUser: hashes the password into `data`, then inserts the row,
     * turning a unique-constraint failure into "User already exists."
     */
    method CreateUser(data: UserCreateInput, bcrypt: Bcrypt, salt: Salt, id: UserId, now: Timestamp,
                      fault: Option<Exception>) returns (r: Result<User, Exception>)
      requires Valid()
      requires forall u :: u in users ==> u.id != id
      modifies this, data
      ensures Valid()
      ensures data.email == old(data.email) && data.password == bcrypt.hash(old(data.password), salt)
      ensures (r, users) == CreateUserOutcome(old(users), old(data.email), old(data.password), bcrypt, salt, id, now, fault)
    {
      ghost var password := data.password;
      var hashedPassword := bcrypt.hash(data.password, salt);
      data.password := hashedPassword;
      var row := User(id, data.email, data.password, now, now);
      var attempt := if fault.Some? then Failure(fault.value) else UserCreate(users, row);
      match attempt {
        case Success(table) =>
          CreateUserKeepsTableValid(users, data.email, password, bcrypt, salt, id, now, fault);
          users := table;
          r := Success(row);
        case Failure(e) =>
          r := Failure(Rethrow(e));
      }
    }
  }

  /** Email uniqueness (and the primary key) survive every createUser. */
  lemma CreateUserKeepsTableValid(users: seq<User>, email: string, password: string, bcrypt: Bcrypt, salt: Salt,
                                  id: UserId, now: Timestamp, fault: Option<Exception>)
    requires UserTableValid(users)
    requires forall u :: u in users ==> u.id != id
    ensures UserTableValid(CreateUserOutcome(users, email, password, bcrypt, salt, id, now, fault).1)
  {
  }

  /** A duplicate email is refused with "User already exists." and the table is unchanged. */
  lemma DuplicateEmailRejected(users: seq<User>, email: string, password: string, bcrypt: Bcrypt, salt: Salt,
                               id: UserId, now: Timestamp, existing: User)
    requires existing in users && existing.email == email
    ensures CreateUserOutcome(users, email, password, bcrypt, salt, id, now, None)
            == (Failure(BadRequestException(DuplicateUser)), users)
  {
  }

  /** Any failure leaves the table as it was, and errors other than P2002 are rethrown unchanged. */
  lemma FailedCreateLeavesTable(users: seq<User>, email: string, password: string, bcrypt: Bcrypt, salt: Salt,
                                id: UserId, now: Timestamp, fault: Option<Exception>)
    ensures var (r, table) := CreateUserOutcome(users, email, password, bcrypt, salt, id, now, fault);
            r.Failure? ==> table == users
    ensures fault.Some? && fault.value != PrismaKnownRequestError(UniqueConstraintFailed) ==>
            CreateUserOutcome(users, email, password, bcrypt, salt, id, now, fault) == (Failure(fault.value), users)
  {
  }

  /**
   * createUser succeeds exactly when the store does not fail and the email
   * is free; the new row holds the digest, is the only row with that email,
   * and every earlier row is kept as it was.
   */
  lemma CreatedUser(users: seq<User>, email: string, password: string, bcrypt: Bcrypt, salt: Salt,
                    id: UserId, now: Timestamp, fault: Option<Exception>)
    ensures var (r, table) := CreateUserOutcome(users, email, password, bcrypt, salt, id, now, fault);
            && (r.Success? <==> fault.None? && forall u :: u in users ==> u.email != email)
            && (r.Success? ==>
                  && r.value == User(id, email, bcrypt.hash(password, salt), now, now)
                  && table == users + [r.value]
                  && table[..|users|] == users
                  && forall i :: 0 <= i < |table| && table[i].email == email ==> i == |users|)
  {
  }

  /** findOne returns the matching user with the ids of exactly its own posts. */
  lemma FindOneFindsTheUser(service: UsersService, where: UserWhereUnique, posts: seq<Post>, user: User)
    requires service.Valid()
    requires user in service.users && Matches(user, where)
    ensures service.FindOne(where, posts).Some?
    ensures service.FindOne(where, posts).value == UserWithPosts(user, PostIds(PostsWhereAuthor(posts, user.id)))
  {
  }
}
