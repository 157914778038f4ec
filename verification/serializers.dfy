/** `UserSerializer`: the public form of a user, with the computed
    `is_subscribed` flag and the write-only password. */
module Serializers {
  import opened Wrappers
  import opened Tables
  import opened Schema
  import opened Http
  import Toggles

  /** `get_is_subscribed`: false without a request or for an anonymous
      requester; otherwise whether the requester follows `obj`. */
  function IsSubscribed(request: Option<Requester>, follows: seq<(UserId, UserId)>, obj: UserId): (r: bool)
    ensures request.None? ==> !r
    ensures request == Some(Anonymous) ==> !r
    ensures r <==> request.Some? && request.value.Authenticated? && (request.value.id, obj) in follows
  {
    match request
    case None => false
    case Some(Anonymous) => false
    case Some(Authenticated(u)) => (u, obj) in follows
  }

  datatype FieldValue = Number(n: int) | Text(s: string) | Null | Flag(b: bool)

  /** The fields of the serializer. */
  datatype UserField = Id | Username | Email | FirstName | LastName | Password | Avatar | IsSubscribedField {
    function Name(): string {
      match this
      case Id => "id"
      case Username => "username"
      case Email => "email"
      case FirstName => "first_name"
      case LastName => "last_name"
      case Password => "password"
      case Avatar => "avatar"
      case IsSubscribedField => "is_subscribed"
    }
  }

  /** `Meta.fields`, in declaration order. */
  const UserFields: seq<UserField> :=
    [Id, Username, Email, FirstName, LastName, Password, Avatar, IsSubscribedField]

  /** `extra_kwargs`: fields accepted on input but never rendered. */
  const WriteOnly: set<UserField> := {Password}

  function FieldValueOf(id: UserId, u: User, subscribed: bool, field: UserField): FieldValue {
    match field
    case Id => Number(id)
    case Username => Text(u.username)
    case Email => Text(u.email)
    case FirstName => Text(u.firstName)
    case LastName => Text(u.lastName)
    case Password => Text(u.password)
    case Avatar => if u.avatar.Some? then Text(u.avatar.value) else Null
    case IsSubscribedField => Flag(subscribed)
  }

  /** A rendered key list: `r` lists, in order, each of `fields` under its
      name. */
  ghost predicate Keyed(fields: seq<UserField>, r: seq<(string, FieldValue)>) {
    |r| == |fields| && forall i :: 0 <= i < |r| ==> r[i].0 == fields[i].Name()
  }

  /** Whether some entry of `r` is rendered under `key`. */
  ghost predicate HasKey(r: seq<(string, FieldValue)>, key: string) {
    exists i :: 0 <= i < |r| && r[i].0 == key
  }

  /** The declared fields that are rendered, in declaration order. */
  function Readable(): (fields: seq<UserField>)
    ensures forall f :: f in fields <==> f in UserFields && f !in WriteOnly
    ensures Password !in fields && IsSubscribedField in fields
  {
    Where(UserFields, (f: UserField) => f !in WriteOnly)
  }

  /** Each of `fields`, in order, under its name with its value. */
  function RenderFields(fields: seq<UserField>, id: UserId, u: User, subscribed: bool)
    : (r: seq<(string, FieldValue)>)
    ensures Keyed(fields, r)
    ensures IsSubscribedField in fields ==> ("is_subscribed", Flag(subscribed)) in r
  {
    var r := seq(|fields|, i requires 0 <= i < |fields| => (fields[i].Name(), FieldValueOf(id, u, subscribed, fields[i])));
    if IsSubscribedField in fields then
      var k :| 0 <= k < |fields| && fields[k] == IsSubscribedField;
      assert r[k] == ("is_subscribed", Flag(subscribed));
      r
    else r
  }

  /** The rendered user: the declared fields that are not write-only, in
      order, each under its name with its value. */
  function SerializeUser(id: UserId, u: User, subscribed: bool): (r: seq<(string, FieldValue)>)
    ensures forall i :: 0 <= i < |r| ==> r[i].0 != "password"
    ensures forall f: UserField :: HasKey(r, f.Name()) <==> f in UserFields && f !in WriteOnly
    ensures ("is_subscribed", Flag(subscribed)) in r
    ensures forall i :: 0 <= i < |r| ==>
      exists f: UserField :: f !in WriteOnly && r[i] == (f.Name(), FieldValueOf(id, u, subscribed, f))
  {
    var fields := Readable();
    var r := RenderFields(fields, id, u, subscribed);
    NoPasswordKey(fields, r);
    KeysAreFields(fields, r);
    r
  }

  /** No key is "password" once the password field is dropped. */
  lemma NoPasswordKey(fields: seq<UserField>, r: seq<(string, FieldValue)>)
    requires Password !in fields
    requires Keyed(fields, r)
    ensures forall i :: 0 <= i < |r| ==> r[i].0 != "password"
  {
  }

  /** The keys rendered are exactly the names of the fields. */
  lemma KeysAreFields(fields: seq<UserField>, r: seq<(string, FieldValue)>)
    requires Keyed(fields, r)
    ensures forall f: UserField :: HasKey(r, f.Name()) <==> f in fields
  {
  }

  /** The user as seen by whoever made `request`. */
  function UserFor(request: Option<Requester>, follows: seq<(UserId, UserId)>, id: UserId, u: User)
    : (r: seq<(string, FieldValue)>)
    ensures ("is_subscribed", Flag(IsSubscribed(request, follows, id))) in r
  {
    SerializeUser(id, u, IsSubscribed(request, follows, id))
  }

  /** After a successful subscribe the author shows as subscribed to the
      requester; after a successful unsubscribe, as not subscribed. */
  lemma SubscribeSetsFlag(db: Db, u: UserId, author: UserId, m: Toggles.Method)
    ensures var r := Toggles.Subscribe(db, Authenticated(u), author, m);
            r.status == Created ==> IsSubscribed(Some(Authenticated(u)), r.db.follows, author)
    ensures var r := Toggles.Subscribe(db, Authenticated(u), author, m);
            r.status == NoContent ==> !IsSubscribed(Some(Authenticated(u)), r.db.follows, author)
  {
  }

  /** A subscribe POST to an existing other author fails exactly when the
      flag already reads true. */
  lemma SubscribeRefusedIffSubscribed(db: Db, u: UserId, author: UserId)
    requires author in db.users && u != author
    ensures Toggles.Subscribe(db, Authenticated(u), author, Toggles.Post).status == BadRequest
        <==> IsSubscribed(Some(Authenticated(u)), db.follows, author)
  {
  }
}
