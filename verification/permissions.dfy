/** `IsAuthorOrReadOnly`: anybody may read an object, only its author may
    change it. */
module Permissions {
  import opened Schema
  import opened Http

  /** `permissions.SAFE_METHODS`. */
  const SafeMethods: set<string> := {"GET", "HEAD", "OPTIONS"}

  /** The methods a recipe endpoint can be asked to perform. */
  const AllMethods: set<string> := {"GET", "HEAD", "OPTIONS", "POST", "PUT", "PATCH", "DELETE"}

  /** `has_object_permission` for an object whose author is `author`. An
      anonymous requester is never the author. */
  function HasObjectPermission(verb: string, req: Requester, author: UserId): (r: bool)
    ensures verb in SafeMethods ==> r
    ensures req == Authenticated(author) ==> r
    ensures verb !in SafeMethods ==> (r <==> req.Authenticated? && req.id == author)
  {
    if verb in SafeMethods then true
    else req == Authenticated(author)
  }

  /** The methods permitted to `req` on an object of `author`. */
  function Permitted(req: Requester, author: UserId): set<string> {
    set m | m in AllMethods && HasObjectPermission(m, req, author)
  }

  /** The author may do everything. */
  lemma AuthorPermitted(author: UserId)
    ensures Permitted(Authenticated(author), author) == AllMethods
  {
  }

  /** Anybody else, the anonymous user included, may only read. */
  lemma OthersReadOnly(req: Requester, author: UserId)
    requires req != Authenticated(author)
    ensures Permitted(req, author) == SafeMethods
  {
  }
}
