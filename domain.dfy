/**
 * The records stored in the two tables, the JavaScript values that cross the
 * HTTP boundary, and the exceptions the handlers raise.
 */
module Domain {

  type UserId = string
  type PostId = string

  /** A point in time in whole seconds, as JWT claims count it. */
  type Timestamp = int

  /** A row of the User table; `password` holds the bcrypt digest. */
  datatype User = User(
    id: UserId,
    email: string,
    password: string,
    createdAt: Timestamp,
    updatedAt: Timestamp)

  /** A row of the Post table; `author` is the id of the owning user. */
  datatype Post = Post(
    id: PostId,
    message: string,
    author: UserId,
    createdAt: Timestamp,
    updatedAt: Timestamp)

  /**
   * A JavaScript value as found in a request body or an object. A property
   * that is `undefined` is modelled as a key missing from the object's map.
   */
  datatype Value =
    | Null
    | Bool(b: bool)
    | Number(n: int)
    | Str(s: string)
    | Date(t: Timestamp)
    | Array(items: seq<Value>)
    | Object(props: map<string, Value>)

  /** What a handler throws; the framework maps each kind to an HTTP status. */
  datatype Exception =
    | NotFoundException(message: string)        // 404
    | UnauthorizedException(message: string)    // 401
    | BadRequestException(message: string)      // 400, raised by application code
    | ValidationFailed(messages: set<string>)   // 400, raised by the validation pipe
    | PrismaKnownRequestError(code: string)     // a store error carrying a Prisma error code
    | StoreFailure(description: string)         // any other store or infrastructure error
}
