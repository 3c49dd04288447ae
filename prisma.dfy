/**
 * The relational store behind the services, as an in-memory model: each
 * table is a sequence of rows in insertion order, and each query the core
 * issues is a function over it.
 */
module Prisma {
  import opened Wrappers
  import opened Domain

  /** Prisma's code for a unique-constraint violation. */
  const UniqueConstraintFailed := "P2002"

  /** Prisma's code for a `connect` to a record that does not exist. */
  const RecordToConnectNotFound := "P2025"

  /** A `where` on one of the User table's unique columns. */
  datatype UserWhereUnique = ById(id: UserId) | ByEmail(email: string)

  predicate Matches(user: User, where: UserWhereUnique) {
    match where
    case ById(id) => user.id == id
    case ByEmail(email) => user.email == email
  }

  /** The unique index on User.email. */
  ghost predicate UniqueEmails(users: seq<User>) {
    forall i, j :: 0 <= i < |users| && 0 <= j < |users| && users[i].email == users[j].email ==> i == j
  }

  /** The primary key of User. */
  ghost predicate UniqueUserIds(users: seq<User>) {
    forall i, j :: 0 <= i < |users| && 0 <= j < |users| && users[i].id == users[j].id ==> i == j
  }

  ghost predicate UserTableValid(users: seq<User>) {
    UniqueEmails(users) && UniqueUserIds(users)
  }

  /** The primary key of Post. */
  ghost predicate UniquePostIds(posts: seq<Post>) {
    forall i, j :: 0 <= i < |posts| && 0 <= j < |posts| && posts[i].id == posts[j].id ==> i == j
  }

  /** user.findUnique({ where }): the matching row, or null. */
  function FindUniqueUser(users: seq<User>, where: UserWhereUnique): (r: Option<User>)
    ensures r.Some? ==> r.value in users && Matches(r.value, where)
    ensures r.None? <==> forall u :: u in users ==> !Matches(u, where)
  {
    if users == [] then None
    else if Matches(users[0], where) then Some(users[0])
    else FindUniqueUser(users[1..], where)
  }

  /** Under the unique constraints the row findUnique returns is the only match. */
  lemma FindUniqueUserIsTheMatch(users: seq<User>, where: UserWhereUnique, user: User)
    requires UserTableValid(users)
    requires user in users && Matches(user, where)
    ensures FindUniqueUser(users, where) == Some(user)
  {
  }

  /** user.create({ data: row }): P2002 when the email is taken, else the row is appended. */
  function UserCreate(users: seq<User>, row: User): (r: Result<seq<User>, Exception>)
    ensures r.Success? <==> forall u :: u in users ==> u.email != row.email
    ensures r.Success? ==> r.value == users + [row]
    ensures r.Failure? ==> r.error == PrismaKnownRequestError(UniqueConstraintFailed)
    ensures r.Success? && UniqueEmails(users) ==> UniqueEmails(r.value)
  {
    if exists u :: u in users && u.email == row.email then Failure(PrismaKnownRequestError(UniqueConstraintFailed))
    else Success(users + [row])
  }

  /** post.findMany({ where: { author } }): the author's rows in store order. */
  function PostsWhereAuthor(posts: seq<Post>, author: UserId): (r: seq<Post>)
    ensures forall p :: p in r <==> p in posts && p.author == author
    ensures forall p :: multiset(r)[p] == if p.author == author then multiset(posts)[p] else 0
    ensures |r| <= |posts|
  {
    if posts == [] then []
    else
      assert posts == [posts[0]] + posts[1..];
      if posts[0].author == author then [posts[0]] + PostsWhereAuthor(posts[1..], author)
      else PostsWhereAuthor(posts[1..], author)
  }

  /** Filtering keeps the primary key: no post id is listed twice. */
  lemma {:induction false} PostsWhereAuthorKeepsIdsUnique(posts: seq<Post>, author: UserId)
    requires UniquePostIds(posts)
    ensures UniquePostIds(PostsWhereAuthor(posts, author))
  {
    if posts != [] {
      UniquePostIdsTail(posts);
      PostsWhereAuthorKeepsIdsUnique(posts[1..], author);
      if posts[0].author == author {
        var rest := PostsWhereAuthor(posts[1..], author);
        assert forall p :: p in rest ==> p in posts[1..];
        UniquePostIdsCons(posts[0], rest);
      }
    }
  }

  /** Dropping the first row keeps the primary key, and no later row shares its id. */
  lemma UniquePostIdsTail(posts: seq<Post>)
    requires UniquePostIds(posts) && posts != []
    ensures UniquePostIds(posts[1..])
    ensures forall p :: p in posts[1..] ==> p.id != posts[0].id
  {
  }

  /** A row whose id no other row has can be put in front. */
  lemma UniquePostIdsCons(post: Post, posts: seq<Post>)
    requires UniquePostIds(posts)
    requires forall p :: p in posts ==> p.id != post.id
    ensures UniquePostIds([post] + posts)
  {
  }

  /** An author without rows gets the empty list. */
  lemma PostsWhereAuthorEmpty(posts: seq<Post>, author: UserId)
    requires forall p :: p in posts ==> p.author != author
    ensures PostsWhereAuthor(posts, author) == []
  {
  }

  /** select: { id: true } over a list of posts. */
  function PostIds(posts: seq<Post>): (ids: seq<PostId>)
    ensures |ids| == |posts|
    ensures forall i :: 0 <= i < |posts| ==> ids[i] == posts[i].id
  {
    if posts == [] then [] else [posts[0].id] + PostIds(posts[1..])
  }

  /** post.findUnique({ where: { id } }). */
  function FindUniquePost(posts: seq<Post>, id: PostId): (r: Option<Post>)
    ensures r.Some? ==> r.value in posts && r.value.id == id
    ensures r.None? <==> forall p :: p in posts ==> p.id != id
  {
    if posts == [] then None
    else if posts[0].id == id then Some(posts[0])
    else FindUniquePost(posts[1..], id)
  }

  /** Under the primary key the row findUnique returns is the post with that id. */
  lemma FindUniquePostIsTheMatch(posts: seq<Post>, post: Post)
    requires UniquePostIds(posts)
    requires post in posts
    ensures FindUniquePost(posts, post.id) == Some(post)
  {
  }

  /** The foreign key: every post's author is a user of the table. */
  ghost predicate AuthorsExist(posts: seq<Post>, users: seq<User>) {
    forall p :: p in posts ==> exists u :: u in users && u.id == p.author
  }

  /**
   * post.create with authorRel: { connect: { id } }: P2025 when no such user
   * exists. The foreign key and the primary key hold afterwards.
   */
  function PostCreate(posts: seq<Post>, users: seq<User>, row: Post): (r: Result<seq<Post>, Exception>)
    ensures r.Success? <==> exists u :: u in users && u.id == row.author
    ensures r.Success? ==> r.value == posts + [row]
    ensures r.Failure? ==> r.error == PrismaKnownRequestError(RecordToConnectNotFound)
    ensures r.Success? && AuthorsExist(posts, users) ==> AuthorsExist(r.value, users)
    ensures r.Success? && UniquePostIds(posts) && (forall p :: p in posts ==> p.id != row.id) ==> UniquePostIds(r.value)
  {
    if forall u :: u in users ==> u.id != row.author then Failure(PrismaKnownRequestError(RecordToConnectNotFound))
    else Success(posts + [row])
  }
}
