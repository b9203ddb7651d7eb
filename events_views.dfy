/**
 * The event and registration views (events/views.py): which permission classes
 * guard each action, which registrations a user can reach, and the store of
 * events and registrations that the register and cancel actions update.
 */
module EventViews {
  import opened Results
  import opened Http
  import opened EventModels
  import opened EventSerializers
  import EventPermissions

  // ---------------------------------------------------------------------------
  // Permissions per action
  // ---------------------------------------------------------------------------

  /** The permission classes the views name. */
  datatype PermissionClass = IsAuthenticated | IsEventOrganizer | IsAdminUser

  /** The event actions that change an event. */
  const EventWriteActions: seq<string> := ["create", "update", "partial_update", "destroy"]

  /** The writing actions that load an existing event first, so that its object-level checks run. */
  const EventObjectWriteActions: seq<string> := ["update", "partial_update", "destroy"]

  /** EventViewSet.get_permissions: the permission classes guarding an event action. */
  function EventViewPermissions(action: string): (perms: seq<PermissionClass>)
    ensures |perms| > 0 && perms[0] == IsAuthenticated
    ensures IsEventOrganizer in perms <==> action in EventWriteActions
    ensures IsAdminUser !in perms
  {
    if action in EventWriteActions then [IsAuthenticated, IsEventOrganizer]
    else [IsAuthenticated]
  }

  /** EventRegistrationViewSet.get_permissions: the permission classes guarding a registration action. */
  function RegistrationViewPermissions(action: string): (perms: seq<PermissionClass>)
    ensures |perms| == 1
    ensures IsAdminUser in perms <==> action == "destroy"
    ensures IsEventOrganizer !in perms
  {
    if action == "destroy" then [IsAdminUser] else [IsAuthenticated]
  }

  /**
   * The request-level test of each class: the two framework classes as the
   * framework defines them; IsEventOrganizer defines only an object-level test.
   */
  function HasPermission(p: PermissionClass, req: Request): (allowed: bool)
    ensures req.user.Some? && req.user.value.isStaff ==> allowed
    ensures req.user.None? ==> (allowed <==> p == IsEventOrganizer)
  {
    match p
    case IsAuthenticated => req.user.Some?
    case IsAdminUser => req.user.Some? && req.user.value.isStaff
    case IsEventOrganizer => true
  }

  /** The object-level test of each class on an event. */
  function HasObjectPermission(p: PermissionClass, req: Request, ev: Event): (allowed: bool)
    ensures IsSafe(req.verb) ==> allowed
    ensures IsUser(req, ev.organizer) ==> allowed
    ensures p != IsEventOrganizer ==> allowed
  {
    match p
    case IsEventOrganizer => EventPermissions.HasObjectPermission(req, ev)
    case _ => true
  }

  /** A request reaches a view when every listed class lets it through. */
  function PermitsRequest(perms: seq<PermissionClass>, req: Request): (allowed: bool)
    ensures allowed <==> forall p :: p in perms ==> HasPermission(p, req)
    ensures IsAuthenticated in perms && req.user.None? ==> !allowed
  {
    forall i :: 0 <= i < |perms| ==> HasPermission(perms[i], req)
  }

  /**
   * A request reaches an event when every listed class lets it through at
   * both levels. The object level runs only where the view loads an event
   * (get_object: retrieve, update, partial_update, destroy, register,
   * registrations); a
   * create loads none and is decided by PermitsRequest alone.
   */
  function PermitsEvent(perms: seq<PermissionClass>, req: Request, ev: Event): (allowed: bool)
    ensures allowed ==> PermitsRequest(perms, req)
    ensures allowed && IsEventOrganizer in perms && !IsSafe(req.verb) ==> IsUser(req, ev.organizer)
  {
    PermitsRequest(perms, req) && forall i :: 0 <= i < |perms| ==> HasObjectPermission(perms[i], req, ev)
  }

  /** Replacing, patching or deleting an existing event with a writing method is for its organizer only. */
  lemma EventWritesNeedOrganizer(action: string, req: Request, ev: Event)
    requires action in EventObjectWriteActions && !IsSafe(req.verb)
    ensures PermitsEvent(EventViewPermissions(action), req, ev) <==> IsUser(req, ev.organizer)
  {
  }

  /**
   * Creating an event needs only a signed-in user: IsEventOrganizer has no
   * request-level test and no event is loaded for its object-level one; the
   * creator then becomes the organizer (see Store.CreateEvent).
   */
  lemma CreateNeedsOnlyLogin(req: Request)
    ensures PermitsRequest(EventViewPermissions("create"), req) <==> req.user.Some?
  {
  }

  /** Every other event action, registering included, is open to any signed-in user. */
  lemma OtherEventActionsNeedLogin(action: string, req: Request, ev: Event)
    requires action !in EventWriteActions
    ensures PermitsEvent(EventViewPermissions(action), req, ev) <==> req.user.Some?
  {
  }

  /** Deleting a registration is for staff only; any other registration action for any signed-in user. */
  lemma RegistrationActionsAccess(action: string, req: Request)
    ensures action == "destroy" ==>
      (PermitsRequest(RegistrationViewPermissions(action), req) <==> req.user.Some? && req.user.value.isStaff)
    ensures action != "destroy" ==>
      (PermitsRequest(RegistrationViewPermissions(action), req) <==> req.user.Some?)
  {
  }

  // ---------------------------------------------------------------------------
  // Registrations a user can reach
  // ---------------------------------------------------------------------------

  /** EventRegistrationViewSet.get_queryset: the user's own registrations, in store order. */
  function OwnedRegistrations(regs: seq<Registration>, user: UserId): (owned: seq<Registration>)
    ensures |owned| <= |regs|
    ensures forall r :: r in owned ==> r in regs && r.user == user
    ensures forall r :: r in regs && r.user == user ==> r in owned
  {
    if regs == [] then []
    else (if regs[0].user == user then [regs[0]] else []) + OwnedRegistrations(regs[1..], user)
  }

  /** The position of registration `id` in `regs`, provided it belongs to `user`. */
  function FindOwned(regs: seq<Registration>, id: RegistrationId, user: UserId): (k: Option<nat>)
    ensures k.Some? ==> k.value < |regs| && regs[k.value].id == id && regs[k.value].user == user
    ensures k.None? <==> forall i :: 0 <= i < |regs| ==> regs[i].id != id || regs[i].user != user
  {
    if regs == [] then None
    else if regs[0].id == id && regs[0].user == user then Some(0)
    else match FindOwned(regs[1..], id, user)
      case None => None
      case Some(k) => Some(k + 1)
  }

  /** Looking a registration up by key finds it exactly when it is in the user's queryset. */
  lemma FindOwnedMatchesQueryset(regs: seq<Registration>, id: RegistrationId, user: UserId)
    ensures FindOwned(regs, id, user).Some? <==>
      exists r :: r in OwnedRegistrations(regs, user) && r.id == id
  {
  }

  // ---------------------------------------------------------------------------
  // The store and its invariant
  // ---------------------------------------------------------------------------

  /** The confirmation job handed to the mail worker after a registration is saved. */
  datatype Notification = RegistrationEmail(user: UserId, event: EventId, registration: RegistrationId)

  datatype RegisterError = EventNotFound | Ineligible(reason: EligibilityError)

  datatype CancelError = RegistrationNotFound | AlreadyCancelled | PastEvent

  /**
   * What the stored tables always satisfy: events are filed under their own
   * key, every registration names a stored event, keys below the next free
   * key are the only ones in use and are used once, no (event, user) pair
   * repeats, and no event holds more registrations than its capacity.
   */
  ghost function StoreInvariant(events: map<EventId, Event>, regs: seq<Registration>, nextEvent: nat, nextRegistration: nat): (inv: bool)
    ensures inv ==> forall i :: 0 <= i < |regs| ==> regs[i].event < nextEvent
  {
    && (forall e :: e in events ==> events[e].id == e && e < nextEvent)
    && (forall i :: 0 <= i < |regs| ==> regs[i].event in events && regs[i].id < nextRegistration)
    && (forall i, j :: 0 <= i < j < |regs| ==> regs[i].id != regs[j].id)
    && UniquePairs(regs)
    && (forall e :: e in events ==> RegistrationCount(regs, e) <= events[e].capacity)
  }

  /** In tables that keep the invariant no stored event shows a negative number of available seats. */
  lemma SeatsNeverNegative(events: map<EventId, Event>, regs: seq<Registration>, nextEvent: nat, nextRegistration: nat)
    requires StoreInvariant(events, regs, nextEvent, nextRegistration)
    ensures forall e :: e in events ==> AvailableSeats(events[e], regs) >= 0
  {
  }

  /** Adding an event under the next free key keeps the invariant: no registration can name it yet. */
  lemma CreateEventKeepsInvariant(events: map<EventId, Event>, regs: seq<Registration>, nextEvent: nat, nextRegistration: nat, ev: Event)
    requires StoreInvariant(events, regs, nextEvent, nextRegistration)
    requires ev.id == nextEvent
    ensures StoreInvariant(events[nextEvent := ev], regs, nextEvent + 1, nextRegistration)
  {
  }

  /** Saving a registration that passed the eligibility check, under the next free key, keeps the invariant. */
  lemma RegisterKeepsInvariant(events: map<EventId, Event>, regs: seq<Registration>, nextEvent: nat, nextRegistration: nat,
                               e: EventId, user: UserId, now: int)
    requires StoreInvariant(events, regs, nextEvent, nextRegistration)
    requires e in events
    requires Validate(RegistrationData(events[e]), user, regs, now).Ok?
    ensures StoreInvariant(events, regs + [Registration(nextRegistration, e, user, Pending, PaymentPending)],
                           nextEvent, nextRegistration + 1)
  {
    var r := Registration(nextRegistration, e, user, Pending, PaymentPending);
    var data := RegistrationData(events[e]);
    AdmissionWithinCapacity(data, user, regs, now, r);
    AdmissionKeepsPairsUnique(data, user, regs, now, r);
    forall e' | e' in events
      ensures RegistrationCount(regs + [r], e') <= events[e'].capacity
    {
      CountAppend(regs, r, e');
    }
  }

  /** Turning one registration's status to cancelled keeps the invariant. */
  lemma CancelKeepsInvariant(events: map<EventId, Event>, regs: seq<Registration>, nextEvent: nat, nextRegistration: nat, k: nat)
    requires StoreInvariant(events, regs, nextEvent, nextRegistration)
    requires k < |regs|
    ensures StoreInvariant(events, regs[k := regs[k].(status := Cancelled)], nextEvent, nextRegistration)
  {
    var regs' := regs[k := regs[k].(status := Cancelled)];
    forall e | e in events
      ensures RegistrationCount(regs', e) <= events[e].capacity
    {
      CountReplace(regs, k, regs[k].(status := Cancelled), e);
    }
    assert forall i :: 0 <= i < |regs| ==>
      regs'[i].id == regs[i].id && regs'[i].event == regs[i].event && regs'[i].user == regs[i].user;
    assert forall i :: 0 <= i < |regs'| ==> regs'[i].event in events && regs'[i].id < nextRegistration;
    assert forall i, j :: 0 <= i < j < |regs'| ==> regs'[i].id != regs'[j].id;
    assert UniquePairs(regs');
  }

  /**
   * The events and registrations tables, the keys the database will hand out
   * next, and the outbox of confirmation jobs handed to the mail worker.
   */
  class Store {
    var events: map<EventId, Event>
    var registrations: seq<Registration>
    var outbox: seq<Notification>
    var nextEventId: nat
    var nextRegistrationId: nat

    ghost predicate Valid()
      reads this
    {
      StoreInvariant(events, registrations, nextEventId, nextRegistrationId)
    }

    /** Empty tables; the database hands out keys from 1. */
    constructor ()
      ensures Valid()
      ensures events == map[] && registrations == [] && outbox == []
      ensures nextEventId == 1 && nextRegistrationId == 1
    {
      events, registrations, outbox := map[], [], [];
      nextEventId, nextRegistrationId := 1, 1;
    }

    /**
     * EventViewSet.create: the date is checked against `now`, by the column's
     * validator first; on success the event is saved under the next free key
     * with the requester as organizer.
     */
    method CreateEvent(organizer: UserId, capacity: nat, date: int, isActive: bool, now: int)
      returns (r: Result<Event, DateError>)
      requires Valid()
      modifies this
      ensures Valid()
      ensures registrations == old(registrations) && outbox == old(outbox)
      ensures nextRegistrationId == old(nextRegistrationId)
      ensures r.Err? <==> date < now
      ensures r.Err? ==>
        && r.error == FieldMinimum(now)
        && events == old(events) && nextEventId == old(nextEventId)
      ensures r.Ok? ==>
        && r.value == Event(old(nextEventId), organizer, capacity, date, isActive)
        && events == old(events)[old(nextEventId) := r.value] && nextEventId == old(nextEventId) + 1
    {
      var checked := ValidateEventDate(date, now, now);
      if checked.Err? {
        return Err(checked.error);
      }
      var ev := Event(nextEventId, organizer, capacity, checked.value, isActive);
      CreateEventKeepsInvariant(events, registrations, nextEventId, nextRegistrationId, ev);
      events := events[nextEventId := ev];
      nextEventId := nextEventId + 1;
      r := Ok(ev);
    }

    /**
     * EventViewSet.register: load the event, run the eligibility check for
     * `user` at `now`; on success save a pending, unpaid registration under the
     * next free key and only then queue its confirmation mail.
     */
    method Register(eventId: EventId, user: UserId, now: int) returns (r: Result<Registration, RegisterError>)
      requires Valid()
      modifies this
      ensures Valid()
      ensures events == old(events) && nextEventId == old(nextEventId)
      ensures eventId !in old(events) ==> r == Err(EventNotFound)
      ensures eventId in old(events) ==>
        var check := Validate(RegistrationData(old(events)[eventId]), user, old(registrations), now);
        (check.Err? ==> r == Err(Ineligible(check.error))) && (check.Ok? <==> r.Ok?)
      ensures r.Err? ==>
        && registrations == old(registrations) && outbox == old(outbox)
        && nextRegistrationId == old(nextRegistrationId)
      ensures r.Ok? ==>
        && r.value == Registration(old(nextRegistrationId), eventId, user, Pending, PaymentPending)
        && registrations == old(registrations) + [r.value]
        && outbox == old(outbox) + [RegistrationEmail(user, eventId, r.value.id)]
        && nextRegistrationId == old(nextRegistrationId) + 1
    {
      if eventId !in events {
        return Err(EventNotFound);
      }
      var check := Validate(RegistrationData(events[eventId]), user, registrations, now);
      if check.Err? {
        return Err(Ineligible(check.error));
      }
      RegisterKeepsInvariant(events, registrations, nextEventId, nextRegistrationId, eventId, user, now);
      var registration := Registration(nextRegistrationId, eventId, user, Pending, PaymentPending);
      registrations := registrations + [registration];
      nextRegistrationId := nextRegistrationId + 1;
      outbox := outbox + [RegistrationEmail(user, eventId, registration.id)];
      r := Ok(registration);
    }

    /**
     * EventRegistrationViewSet.cancel: find registration `id` among the
     * requester's own, refuse one already cancelled, then one whose event
     * lies before `now`; otherwise set its status to cancelled and save it.
     */
    method Cancel(id: RegistrationId, requester: UserId, now: int) returns (r: Result<Registration, CancelError>)
      requires Valid()
      modifies this
      ensures Valid()
      ensures events == old(events) && outbox == old(outbox)
      ensures nextEventId == old(nextEventId) && nextRegistrationId == old(nextRegistrationId)
      ensures r == Err(RegistrationNotFound) <==> FindOwned(old(registrations), id, requester).None?
      ensures r == Err(RegistrationNotFound) <==>
        !exists reg :: reg in OwnedRegistrations(old(registrations), requester) && reg.id == id
      ensures r.Err? ==> registrations == old(registrations)
      ensures forall e :: e in events ==> AvailableSeats(events[e], registrations) == AvailableSeats(events[e], old(registrations))
      ensures FindOwned(old(registrations), id, requester).Some? ==>
        var k := FindOwned(old(registrations), id, requester).value;
        var reg := old(registrations)[k];
        && (reg.status == Cancelled ==> r == Err(AlreadyCancelled))
        && (reg.status != Cancelled && events[reg.event].date < now ==> r == Err(PastEvent))
        && (reg.status != Cancelled && now <= events[reg.event].date ==>
              r == Ok(reg.(status := Cancelled)) && registrations == old(registrations)[k := r.value])
    {
      FindOwnedMatchesQueryset(registrations, id, requester);
      var found := FindOwned(registrations, id, requester);
      if found.None? {
        return Err(RegistrationNotFound);
      }
      var k := found.value;
      var reg := registrations[k];
      if reg.status == Cancelled {
        return Err(AlreadyCancelled);
      }
      if events[reg.event].date < now {
        return Err(PastEvent);
      }
      forall e | e in events
        ensures AvailableSeats(events[e], registrations[k := reg.(status := Cancelled)]) == AvailableSeats(events[e], registrations)
      {
        StatusChangeKeepsSeats(events[e], registrations, k, Cancelled);
      }
      CancelKeepsInvariant(events, registrations, nextEventId, nextRegistrationId, k);
      var cancelled := reg.(status := Cancelled);
      registrations := registrations[k := cancelled];
      r := Ok(cancelled);
    }
  }
}
