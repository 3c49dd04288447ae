# Verified model of a NestJS posting backend: login, users, posts

The system is a small social-posting backend. Users register with an email
and a password. They log in to get a short-lived signed access token, and
they then create and read short text posts tied to their account. This
project models the rules behind that flow in Dafny and proves them:

- the login decision (unknown email, wrong password, or a token whose `id`
  claim is the user's id and which expires after five minutes);
- the user store: the password is replaced by its digest, duplicate emails
  are refused, the table is left unchanged on any failure, other store
  errors pass through, and `findOne` attaches the ids of the user's posts;
- the post operations, scoped to the authenticated caller: the author always
  comes from the identity and never from the body, the listing holds exactly
  the caller's posts, and fetch-by-id is deliberately not owner-filtered;
- the validation of a post's `message` (not empty, a string, at most 280
  characters);
- the public projection of a user, which never carries `password`.

The database is modelled as an in-memory store: each table is a sequence of
rows in insertion order, with the queries in module `Prisma`. bcrypt and JWT
signing are records of uninterpreted functions (`Crypto.Bcrypt`,
`Crypto.Jwt`). Lemmas take their one law as a hypothesis: `Sound` says a
password compares equal to its own digest, and `RoundTrips` says a signed
token decodes to its claims. The following are parameters of the operations:

- the clock (`now`, in seconds);
- the salt;
- the ids the database generates. They are fresh: the method's `requires`
  says no row already has that id;
- an optional infrastructure failure of the store (`fault`).

Modules (one per source file, plus shared ones):
`Wrappers` (Option, Result), `Domain` (rows, JavaScript values, exceptions),
`Crypto`, `Prisma`, `Users` (users.service.ts), `UserEntities`
(user.entity.ts), `Auth` (auth.service.ts), `PostDto` (create-post.dto.ts),
`Posts` (posts.controller.ts).

The two services whose state changes are classes. `Users.UsersService` holds
the User table and `Posts.PostsController` holds the Post table. Each has a
`Valid()` invariant: unique emails and ids for users, unique ids for posts.
Their state-changing methods are proved equal to a pure outcome function
(`Users.CreateUserOutcome`, `Posts.CreatePostOutcome`). The lemmas about the
source's promises are stated on those functions.

The code does not trim the message, so a message of blanks is accepted
(`PostDto.NoTrimming`).

## Model

| member | source | states |
|---|---|---|
| `Prisma.FindUniqueUser` | src/users/users.service.ts:13-20 | the lookup returns a user that matches the id or email, and returns none exactly when no user matches |
| `Prisma.FindUniqueUserIsTheMatch` | src/users/users.service.ts:13-14 | with unique emails and ids, the lookup returns exactly the user that matches |
| `Prisma.UserCreate` | src/users/users.service.ts:28-30 | user.create succeeds exactly when the email is free, and then appends the row and keeps emails unique; otherwise it fails with P2002 |
| `Prisma.PostsWhereAuthor` | src/posts/posts.controller.ts:27-29 | the author filter holds a post exactly when the post is in the table and has that author, and each such row as often as the table holds it (once, under the primary key) |
| `Prisma.PostsWhereAuthorKeepsIdsUnique` | src/posts/posts.controller.ts:27-29 | filtering by author never lists a post id twice when the table's ids are unique |
| `Prisma.PostsWhereAuthorEmpty` | test/app.e2e-spec.ts:369-381 | an author with no posts gets the empty list |
| `Prisma.PostIds` | src/users/users.service.ts:16-18 | selecting `id` keeps one id per post, in order |
| `Prisma.FindUniquePost` | src/posts/posts.controller.ts:20-22 | the post lookup returns a post with that id, and returns none exactly when no post has it |
| `Prisma.FindUniquePostIsTheMatch` | src/posts/posts.controller.ts:20-22 | with unique post ids, the lookup returns exactly the post with that id |
| `Prisma.PostCreate` | src/posts/posts.controller.ts:36-41 | post.create with `connect` keeps the foreign key (every author is a stored user) and, for a fresh id, the primary key; it fails with P2025 exactly when no user has the author id |
| `Crypto.Sign` | src/auth/auth.service.ts:31 | the signed token decodes to the claims `{id, iat: now, exp: now + 300}` |
| `Crypto.TokenLifetime` | src/auth/auth.module.ts:15-18 | by the JWT library's expiry rule `Crypto.Expired` (rejected from the `exp` second on), an issued token is expired exactly from 5 minutes after issue |
| `Users.Rethrow` | src/users/users.service.ts:31-37 | the catch block never lets a P2002 error escape: it becomes BadRequest "User already exists.", and every other error passes through unchanged |
| `Users.CreateUserOutcome` | src/users/users.service.ts:23-39 | on failure the table is unchanged and no P2002 escapes; on success the new row has the given id, the email, the digest of the password and `now`, and it is appended |
| `Users.PostRefs` | src/users/users.service.ts:15-19 | each attached post appears as the object `{ id }`, in order |
| `Users.UsersService.FindOne` | src/users/users.service.ts:10-21 | null exactly when no user matches; otherwise a matching user plus the ids of exactly the posts that user wrote, each listed once when post ids are unique |
| `Users.FindOneFindsTheUser` | src/users/users.service.ts:10-21 | while the table is valid, findOne returns the matching user with the ids of their own posts |
| `Users.UsersService.CreateUser` | src/users/users.service.ts:23-39 | the input's password is overwritten with its digest; the result and new table are the create outcome; email uniqueness is kept |
| `Users.CreateUserKeepsTableValid` | src/users/users.service.ts:27-30 | unique emails and unique ids hold after every create, whether it succeeds or fails |
| `Users.DuplicateEmailRejected` | src/users/users.service.ts:31-35 | creating with an email already stored fails with "User already exists." and leaves the table unchanged |
| `Users.FailedCreateLeavesTable` | src/users/users.service.ts:31-37 | any failed create leaves the table unchanged; a store error other than P2002 is rethrown as it is |
| `Users.CreatedUser` | src/users/users.service.ts:24-30 | success happens exactly when the store does not fail and the email is free; the stored row holds the digest; it is appended; earlier rows are kept; it is the only row with that email |
| `UserEntities.UserEntity.constructor` | src/users/entities/user.entity.ts:12-14 | the entity holds every supplied property, `posts` and `password` included |
| `UserEntities.UserEntity.ToPlain` | src/users/entities/user.entity.ts:9-10 | the output never holds `password` and carries every other property unchanged |
| `UserEntities.PublicUser` | src/users/entities/user.entity.ts:3-14 | a found user serialises to exactly id, email, createdAt, updatedAt and posts; the instance still holds the digest |
| `Auth.Login` | src/auth/auth.service.ts:17-33 | NotFound "User not found." exactly when no user has the email; Unauthorized "Invalid password." only when an email match fails the password compare; success only with a matching password, giving a token signed for that user's id |
| `Auth.LoginForRegisteredEmail` | src/auth/auth.service.ts:18-32 | for a stored email, login succeeds exactly on a matching password, and the token decodes to that user's id with a 300-second expiry |
| `Auth.SignUpThenLogin` | test/app.e2e-spec.ts:91-167 | logging in after a successful registration, with the same email and password, succeeds with the new user's id as the claim |
| `PostDto.Validate` | src/posts/dto/create-post.dto.ts:3-8 | accepted exactly when `message` is a string of 1 to 280 characters, which is then returned unchanged; otherwise some of the three constraint messages |
| `PostDto.RejectionMessages` | src/posts/dto/create-post.dto.ts:4-6 | missing, null or empty gives "should not be empty"; a non-string gives "must be a string" and the length message; over 280 characters gives only the length message |
| `PostDto.LengthBoundary` | src/posts/dto/create-post.dto.ts:6 | 280 characters are accepted as they are; 281 are refused with the length message |
| `PostDto.NoTrimming` | src/posts/dto/create-post.dto.ts:4 | an illustration of `Validate` on one input: a one-blank message is accepted and kept unchanged, since there is no trimming |
| `Posts.CreatePostOutcome` | src/posts/posts.controller.ts:32-42 | on failure the table is unchanged; on success the caller is authenticated and is the author, the id is the assigned one, the message is the validated one, and the post is appended |
| `Posts.PostsController.Create` | src/posts/posts.controller.ts:32-42 | the result and new table are the create outcome of the guard, the validation pipe and post.create; post ids stay unique |
| `Posts.PostsController.GetPosts` | src/posts/posts.controller.ts:24-30 | Unauthorized exactly when there is no identity; otherwise a list holding exactly the caller's posts, each as often as it is stored |
| `Posts.PostsController.GetById` | src/posts/posts.controller.ts:18-22 | Unauthorized exactly when there is no identity; otherwise NotFound "Post not found." exactly when no post has the id, and else the post with that id |
| `Posts.CreateKeepsIdsUnique` | src/posts/posts.controller.ts:36-41 | post ids stay unique after every create |
| `Posts.CreatedPost` | src/posts/posts.controller.ts:34-41 | a created post has the caller as author and the body's message, and it is the one post appended; a failure leaves the table unchanged |
| `Posts.AuthorCannotBeForged` | src/posts/posts.controller.ts:35-36 | two bodies with the same `message` give the same outcome, whatever else they carry |
| `Posts.GuardRunsFirst` | src/posts/posts.controller.ts:32-34 | with no identity, create fails with Unauthorized and the table is unchanged |
| `Posts.CreateByKnownUser` | src/posts/posts.controller.ts:36-41 | a valid message from a stored user is created when the store does not fail |
| `Posts.CreateKeepsAuthorsExisting` | src/posts/posts.controller.ts:38-40 | every post's author stays a user of the table |
| `Posts.OwnershipScoping` | src/posts/posts.controller.ts:18-30 | any signed-in caller, its author included, fetches a stored post by id; the post appears in a caller's own listing exactly when that caller wrote it |
| `Posts.NoPostsListsEmpty` | test/app.e2e-spec.ts:369-381 | a caller with no posts gets `Success([])`, an empty list and not an error |

## Left out

- bcrypt internals are not modelled: salt generation, the cost factor 10, and the digest format. `hash` and `compare` are uninterpreted, and the salt is a parameter. `compare` is total, so a malformed digest cannot make the call throw.
- JWT internals are not modelled: HMAC signing, encoding and the hard-coded secret. `sign` and `decode` are uninterpreted.
- Token verification is not modelled beyond the `exp` rule (`Crypto.Expired`). The JwtStrategy and JwtAuthGuard are not part of this model. The identity the guard attaches to a request is the parameter `caller`, and `None` stands for a rejected request.
- HTTP plumbing is left out: the `access_token` cookie and its flags, status codes and decorators. `AuthController.login` only passes the token to the cookie. `AuthController.findOne` is covered by `Users.UsersService.FindOne` and `UserEntities.PublicUser`.
- `Auth.Login` returns the signed token itself, not the `{ accessToken }` object around it. It reads the User table only, so it cannot change it. The post ids that its `findOne` call attaches are unused, so the model leaves them out.
- src/posts/posts.service.ts is not part of this model. Its `findOne`, `findMany` and `createPost` are modelled as direct store queries. The "Post not found." error of fetch-by-id comes from the asserted behaviour in test/app.e2e-spec.ts:279-289.
- The database assigns ids and timestamps. Ids are fresh values, which is a `requires` of the create methods. Both timestamps of a new row are the parameter `now`.
- A post whose author no longer exists gets Prisma's P2025 error from post.create. Users are never deleted in this core.
- Store failures are modelled only for the two writes: `Users.CreateUserOutcome` and `Posts.CreatePostOutcome` take an optional `fault`, and the model does not say what causes one. Store reads never fail in the model. That covers the lookups behind `Auth.Login`, `Users.UsersService.FindOne`, `Posts.PostsController.GetPosts` and `Posts.PostsController.GetById`. So `Auth.Login`'s contract leaves out the store error that `findOne` could throw.
- The race between two concurrent registrations with the same email is left out. The database's unique index settles it, and create is modelled as atomic.
- The create-user and login DTOs are not part of this model: email format and the 6-character password minimum.
- `Posts.PostsController.GetPosts`: lists posts in store order. Prisma gives no order without `orderBy`, so the contract states membership and multiplicity but not the order.
- `PostDto.Validate`: lengths are counted in Unicode characters. validator.js also ignores variation selectors when it measures length; the model does not. The failed constraints are returned as a set, because the order of the messages is not fixed by the code.
- JavaScript numbers are integers in `Domain.Value`; floating point is not modelled.
