/**
 * The parts of an incoming request that the permission classes and views read:
 * the HTTP method and the (possibly absent) authenticated user.
 */
module Http {
  import opened Results

  /** Primary keys of the user table. */
  type UserId = nat

  /** A user account, reduced to what the core reads: its key and the staff flag. */
  datatype User = User(id: UserId, isStaff: bool)

  /** A request: its HTTP method name as sent (e.g. "GET") and the user, absent when anonymous. */
  datatype Request = Request(verb: string, user: Option<User>)

  /** The framework's tuple of methods that never change state. */
  const SafeMethods: seq<string> := ["GET", "HEAD", "OPTIONS"]

  predicate IsSafe(verb: string)
  {
    verb in SafeMethods
  }

  /** Model instances compare equal when their primary keys do; an anonymous user equals no account. */
  predicate IsUser(req: Request, id: UserId)
  {
    req.user.Some? && req.user.value.id == id
  }
}
