/**
 * PostsController: creating, listing and fetching posts on behalf of the
 * authenticated caller. `caller` is the identity the JWT guard attached to
 * the request (req.user.id), or None when the guard found no valid token.
 */
module Posts {
  import opened Wrappers
  import opened Domain
  import opened Prisma
  import opened PostDto

  const PostNotFound := "Post not found."

  /** The guard's rejection of a request without a valid token. */
  const GuardRejection := UnauthorizedException("Unauthorized")

  /**
   * What POST /posts returns on a Post table holding `posts`, and what the
   * table holds afterwards. The guard runs first, then the validation pipe,
   * then create. `users` is the User table the author is connected to;
   * `id` and `now` are the values the database assigns; `fault`, when
   * present, is an infrastructure error raised by post.create.
   */
  function CreatePostOutcome(posts: seq<Post>, users: seq<User>, caller: Option<UserId>, body: map<string, Value>,
                             id: PostId, now: Timestamp, fault: Option<Exception>): (outcome: (Result<Post, Exception>, seq<Post>))
    ensures outcome.0.Failure? ==> outcome.1 == posts
    ensures outcome.0.Success? ==> caller.Some? && outcome.0.value.author == caller.value
                                   && outcome.0.value.id == id && outcome.1 == posts + [outcome.0.value]
    ensures outcome.0.Success? ==> Validate(body) == Success(outcome.0.value.message)
  {
    if caller.None? then (Failure(GuardRejection), posts)
    else match Validate(body)
      case Failure(messages) => (Failure(ValidationFailed(messages)), posts)
      case Success(message) =>
        var row := Post(id, message, caller.value, now, now);
        var attempt := if fault.Some? then Failure(fault.value) else PostCreate(posts, users, row);
        match attempt
        case Success(table) => (Success(row), table)
        case Failure(e) => (Failure(e), posts)
  }

  class PostsController {
    /** The Post table, as PostsService reaches it. */
    var posts: seq<Post>

    ghost predicate Valid()
      reads this
    {
      UniquePostIds(posts)
    }

    constructor ()
      ensures Valid() && posts == []
    {
      posts := [];
    }

    /** POST /posts: a post with the body's message, authored by the caller. */
    method Create(caller: Option<UserId>, body: map<string, Value>, users: seq<User>, id: PostId, now: Timestamp,
                  fault: Option<Exception>) returns (r: Result<Post, Exception>)
      requires Valid()
      requires forall p :: p in posts ==> p.id != id
      modifies this
      ensures Valid()
      ensures (r, posts) == CreatePostOutcome(old(posts), users, caller, body, id, now, fault)
    {
      if caller.None? {
        return Failure(GuardRejection);
      }
      var validated := Validate(body);
      if validated.Failure? {
        return Failure(ValidationFailed(validated.error));
      }
      var message := validated.value;
      var row := Post(id, message, caller.value, now, now);
      var attempt := if fault.Some? then Failure(fault.value) else PostCreate(posts, users, row);
      match attempt {
        case Success(table) =>
          CreateKeepsIdsUnique(posts, users, caller, body, id, now, fault);
          posts := table;
          r := Success(row);
        case Failure(e) =>
          r := Failure(e);
      }
    }

    /** GET /posts: exactly the caller's posts, in store order; an empty list when there are none. */
    function GetPosts(caller: Option<UserId>): (r: Result<seq<Post>, Exception>)
      reads this
      ensures caller.None? <==> r == Failure(GuardRejection)
      ensures caller.Some? ==> r.Success? && forall p :: p in r.value <==> p in posts && p.author == caller.value
      ensures caller.Some? ==> forall p :: multiset(r.value)[p] == if p.author == caller.value then multiset(posts)[p] else 0
    {
      if caller.None? then Failure(GuardRejection)
      else Success(PostsWhereAuthor(posts, caller.value))
    }

    /** GET /posts/:id: the post with that id whoever wrote it, or "Post not found.". */
    function GetById(caller: Option<UserId>, id: PostId): (r: Result<Post, Exception>)
      reads this
      ensures caller.None? <==> r == Failure(GuardRejection)
      ensures caller.Some? ==> (r == Failure(NotFoundException(PostNotFound)) <==> forall p :: p in posts ==> p.id != id)
      ensures caller.Some? && r.Success? ==> r.value in posts && r.value.id == id
      ensures r.Failure? ==> r.error in {GuardRejection, NotFoundException(PostNotFound)}
    {
      if caller.None? then Failure(GuardRejection)
      else match FindUniquePost(posts, id)
        case None => Failure(NotFoundException(PostNotFound))
        case Some(post) => Success(post)
    }
  }

  /** The primary key survives every create. */
  lemma CreateKeepsIdsUnique(posts: seq<Post>, users: seq<User>, caller: Option<UserId>, body: map<string, Value>,
                             id: PostId, now: Timestamp, fault: Option<Exception>)
    requires UniquePostIds(posts)
    requires forall p :: p in posts ==> p.id != id
    ensures UniquePostIds(CreatePostOutcome(posts, users, caller, body, id, now, fault).1)
  {
  }

  /**
   * A created post is authored by the caller and carries the body's message;
   * it is the one post added, and every earlier post is kept as it was.
   */
  lemma CreatedPost(posts: seq<Post>, users: seq<User>, caller: Option<UserId>, body: map<string, Value>,
                    id: PostId, now: Timestamp, fault: Option<Exception>)
    ensures var (r, table) := CreatePostOutcome(posts, users, caller, body, id, now, fault);
            r.Success? ==>
              && caller.Some?
              && r.value == Post(id, r.value.message, caller.value, now, now)
              && MessageOf(body) == Some(Str(r.value.message))
              && table == posts + [r.value]
    ensures var (r, table) := CreatePostOutcome(posts, users, caller, body, id, now, fault);
            r.Failure? ==> table == posts
  {
  }

  /** Only `message` is read from the body: two bodies with the same message create the same post. */
  lemma AuthorCannotBeForged(posts: seq<Post>, users: seq<User>, caller: Option<UserId>, body: map<string, Value>,
                             forged: map<string, Value>, id: PostId, now: Timestamp, fault: Option<Exception>)
    requires MessageOf(forged) == MessageOf(body)
    ensures CreatePostOutcome(posts, users, caller, forged, id, now, fault)
            == CreatePostOutcome(posts, users, caller, body, id, now, fault)
  {
  }

  /** Without a verified identity, create is refused before it reaches the validation pipe or the store. */
  lemma GuardRunsFirst(posts: seq<Post>, users: seq<User>, body: map<string, Value>, id: PostId, now: Timestamp,
                       fault: Option<Exception>)
    ensures CreatePostOutcome(posts, users, None, body, id, now, fault) == (Failure(GuardRejection), posts)
  {
  }

  /** A create by a user of the table succeeds unless the message is invalid or the store fails. */
  lemma CreateByKnownUser(posts: seq<Post>, users: seq<User>, caller: UserId, body: map<string, Value>,
                          id: PostId, now: Timestamp)
    requires exists u :: u in users && u.id == caller
    requires Validate(body).Success?
    ensures CreatePostOutcome(posts, users, Some(caller), body, id, now, None).0.Success?
  {
  }

  /** Every post keeps pointing at an existing user. */
  lemma CreateKeepsAuthorsExisting(posts: seq<Post>, users: seq<User>, caller: Option<UserId>,
                                   body: map<string, Value>, id: PostId, now: Timestamp, fault: Option<Exception>)
    requires AuthorsExist(posts, users)
    ensures AuthorsExist(CreatePostOutcome(posts, users, caller, body, id, now, fault).1, users)
  {
  }

  /**
   * Any authenticated caller, its author or not, fetches a stored post by
   * its id; the post is in the caller's own listing exactly when the caller
   * wrote it.
   */
  lemma OwnershipScoping(controller: PostsController, post: Post, reader: UserId)
    requires controller.Valid()
    requires post in controller.posts
    ensures controller.GetById(Some(reader), post.id) == Success(post)
    ensures post in controller.GetPosts(Some(reader)).value <==> post.author == reader
  {
  }

  /** A caller without posts gets the empty list, not an error. */
  lemma NoPostsListsEmpty(controller: PostsController, caller: UserId)
    requires forall p :: p in controller.posts ==> p.author != caller
    ensures controller.GetPosts(Some(caller)) == Success([])
  {
    PostsWhereAuthorEmpty(controller.posts, caller);
  }
}
