/** The shared permission classes (core/permissions.py). */
module CorePermissions {
  import opened Results
  import opened Http

  /** IsAdminOrReadOnly.has_permission: reading is open; writing needs a staff user. */
  function IsAdminOrReadOnly(req: Request): (allowed: bool)
    ensures IsSafe(req.verb) ==> allowed
    ensures req.user.None? ==> (allowed <==> IsSafe(req.verb))
  {
    if IsSafe(req.verb) then true
    else req.user.Some? && req.user.value.isStaff
  }

  /**
   * IsOwnerOrReadOnly.has_object_permission for an object whose `user` field
   * is `owner`: reading is open; writing is for the owner only.
   */
  function IsOwnerOrReadOnly(req: Request, owner: UserId): (allowed: bool)
    ensures IsSafe(req.verb) ==> allowed
    ensures IsUser(req, owner) ==> allowed
    ensures req.user.None? ==> (allowed <==> IsSafe(req.verb))
  {
    if IsSafe(req.verb) then true
    else IsUser(req, owner)
  }

  /** GET, HEAD and OPTIONS pass both classes for every requester and every owner. */
  lemma SafeMethodsAllowed(req: Request, owner: UserId)
    requires IsSafe(req.verb)
    ensures IsAdminOrReadOnly(req) && IsOwnerOrReadOnly(req, owner)
  {
  }

  /** A non-safe method passes IsAdminOrReadOnly exactly when a staff user is present. */
  lemma AdminWritesOnly(req: Request)
    requires !IsSafe(req.verb)
    ensures IsAdminOrReadOnly(req) <==> req.user.Some? && req.user.value.isStaff
  {
  }

  /** A non-safe method passes IsOwnerOrReadOnly exactly when the requester owns the object. */
  lemma OwnerWritesOnly(req: Request, owner: UserId)
    requires !IsSafe(req.verb)
    ensures IsOwnerOrReadOnly(req, owner) <==> req.user.Some? && req.user.value.id == owner
  {
  }

  /** Anonymous and non-staff users are refused every write by IsAdminOrReadOnly; non-owners by IsOwnerOrReadOnly. */
  lemma OutsidersRefusedWrites(verb: string, user: Option<User>, owner: UserId)
    requires !IsSafe(verb)
    ensures (user.None? || !user.value.isStaff) ==> !IsAdminOrReadOnly(Request(verb, user))
    ensures (user.None? || user.value.id != owner) ==> !IsOwnerOrReadOnly(Request(verb, user), owner)
  {
  }
}
