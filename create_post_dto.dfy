/** CreatePostDto: the constraints the validation pipe checks on a new post's body. */
module PostDto {
  import opened Wrappers
  import opened Domain

  const MaxMessageLength: nat := 280

  const NotEmptyMessage := "message should not be empty"
  const IsStringMessage := "message must be a string"
  const MaxLengthMessage := "message must be shorter than or equal to 280 characters"

  /** IsNotEmpty: neither undefined, null nor the empty string. */
  predicate IsNotEmpty(v: Option<Value>) {
    v.Some? && v.value != Null && v.value != Str("")
  }

  /** IsString. */
  predicate IsString(v: Option<Value>) {
    v.Some? && v.value.Str?
  }

  /** MaxLength(max): a string of at most `max` characters. */
  predicate MaxLength(v: Option<Value>, max: nat) {
    v.Some? && v.value.Str? && |v.value.s| <= max
  }

  /** The `message` property of a body; a missing key is `undefined`. */
  function MessageOf(body: map<string, Value>): Option<Value> {
    if "message" in body then Some(body["message"]) else None
  }

  /** The message of every constraint on `message` that `v` fails. */
  function Violations(v: Option<Value>): set<string> {
    (if IsNotEmpty(v) then {} else {NotEmptyMessage})
    + (if IsString(v) then {} else {IsStringMessage})
    + (if MaxLength(v, MaxMessageLength) then {} else {MaxLengthMessage})
  }

  /**
   * The validation pipe on a CreatePostDto body: the message string when it
   * passes all three constraints, else the messages of those it fails.
   * Only `message` is read; the whitelist drops every other property.
   */
  function Validate(body: map<string, Value>): (r: Result<string, set<string>>)
    ensures r.Success? <==> exists s :: MessageOf(body) == Some(Str(s)) && 0 < |s| <= MaxMessageLength
    ensures r.Success? ==> MessageOf(body) == Some(Str(r.value))
    ensures r.Failure? ==> r.error != {} && r.error <= {NotEmptyMessage, IsStringMessage, MaxLengthMessage}
  {
    var violations := Violations(MessageOf(body));
    if violations == {} then Success(MessageOf(body).value.s) else Failure(violations)
  }

  /** Which message each kind of bad `message` property is reported with. */
  lemma RejectionMessages(body: map<string, Value>)
    ensures MessageOf(body) in {None, Some(Null), Some(Str(""))} ==>
              Validate(body).Failure? && NotEmptyMessage in Validate(body).error
    ensures MessageOf(body).Some? && !MessageOf(body).value.Str? ==>
              Validate(body).Failure? && IsStringMessage in Validate(body).error
                && MaxLengthMessage in Validate(body).error
    ensures MessageOf(body).Some? && MessageOf(body).value.Str? && |MessageOf(body).value.s| > MaxMessageLength ==>
              Validate(body) == Failure({MaxLengthMessage})
  {
    var v := MessageOf(body);
    if v.Some? && v.value.Str? && |v.value.s| > MaxMessageLength {
      assert v.value != Str("") by { assert |v.value.s| != |""|; }
      assert Violations(v) == {MaxLengthMessage};
    }
  }

  /** A message of 280 characters is accepted as it is; one of 281 is refused for its length. */
  lemma LengthBoundary(c: char, other: map<string, Value>)
    ensures var m := seq(280, _ => c); Validate(other["message" := Str(m)]) == Success(m)
    ensures var m := seq(281, _ => c); Validate(other["message" := Str(m)]) == Failure({MaxLengthMessage})
  {
    var m := seq(280, _ => c);
    assert m != [];
    var long := seq(281, _ => c);
    assert Str(long) != Str("") by { assert |long| != |""|; }
    assert Violations(Some(Str(long))) == {MaxLengthMessage};
  }

  /** No trimming: a message of one blank is accepted and kept as it is. */
  lemma NoTrimming()
    ensures Validate(map["message" := Str(" ")]) == Success(" ")
  {
  }
}
