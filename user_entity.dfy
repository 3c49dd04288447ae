/** UserEntity: the wrapper a user is serialised through, hiding `password` on output. */
module UserEntities {
  import opened Domain
  import opened Users

  /** The property excluded from plain output (Exclude with toPlainOnly). */
  const Password := "password"

  class UserEntity {
    /** The instance's own properties. */
    var props: map<string, Value>

    /** Object.assign(this, partial): every supplied property is copied. */
    constructor (partial: map<string, Value>)
      ensures props == partial
    {
      props := partial;
    }

    /** The plain object the serializer emits: every property but `password`. */
    function ToPlain(): (plain: map<string, Value>)
      reads this
      ensures Password !in plain
      ensures forall key :: key in plain <==> key in props && key != Password
      ensures forall key :: key in plain ==> plain[key] == props[key]
    {
      props - {Password}
    }
  }

  /**
   * A user found by findOne and wrapped in a UserEntity serialises to its
   * id, email, timestamps and post references, while the instance itself
   * still holds the digest.
   */
  lemma PublicUser(entity: UserEntity, found: UserWithPosts)
    requires entity.props == AsObject(found)
    ensures entity.ToPlain() == map[
              "id" := Str(found.user.id),
              "email" := Str(found.user.email),
              "createdAt" := Date(found.user.createdAt),
              "updatedAt" := Date(found.user.updatedAt),
              "posts" := Array(PostRefs(found.posts))]
    ensures Password in entity.props && entity.props[Password] == Str(found.user.password)
  {
  }
}
