/** The object-level permission on events (events/permissions.py). */
module EventPermissions {
  import opened Http
  import opened EventModels

  /**
   * IsEventOrganizer.has_object_permission: reading is open to anyone; any
   * other method is allowed only to the event's organizer.
   */
  function HasObjectPermission(req: Request, ev: Event): (allowed: bool)
    ensures IsSafe(req.verb) ==> allowed
    ensures IsUser(req, ev.organizer) ==> allowed
    ensures req.user.None? ==> (allowed <==> IsSafe(req.verb))
  {
    if IsSafe(req.verb) then true
    else IsUser(req, ev.organizer)
  }

  /** GET, HEAD and OPTIONS pass for every requester, anonymous or not, on every event. */
  lemma SafeMethodsAllowed(req: Request, ev: Event)
    requires req.verb == "GET" || req.verb == "HEAD" || req.verb == "OPTIONS"
    ensures HasObjectPermission(req, ev)
  {
  }

  /** Any other method passes exactly when the requester is the organizer. */
  lemma WritesOnlyByOrganizer(req: Request, ev: Event)
    requires !IsSafe(req.verb)
    ensures HasObjectPermission(req, ev) <==> req.user.Some? && req.user.value.id == ev.organizer
  {
  }

  /** The decision reads only the method and who organizes the event, no other event field. */
  lemma DependsOnlyOnOrganizer(req: Request, ev1: Event, ev2: Event)
    requires ev1.organizer == ev2.organizer
    ensures HasObjectPermission(req, ev1) == HasObjectPermission(req, ev2)
  {
  }
}
