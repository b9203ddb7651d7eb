/**
 * The validation done by the event serializers (events/serializers.py): the
 * ordered eligibility check run before a registration is saved, and the date
 * check applied when an event is created or edited.
 */
module EventSerializers {
  import opened Results
  import opened Http
  import opened EventModels

  /** Why a registration attempt is refused. */
  datatype EligibilityError = RegistrationClosed | NoAvailableSeats | AlreadyRegistered

  /** The message the serializer raises for each refusal; different refusals read differently. */
  function EligibilityMessage(e: EligibilityError): (msg: string)
    ensures |msg| > 0
  {
    match e
    case RegistrationClosed => "Event registration is closed"
    case NoAvailableSeats => "No available seats"
    case AlreadyRegistered => "You are already registered for this event"
  }

  /** The input of the registration serializer: the event asked for. */
  datatype RegistrationData = RegistrationData(event: Event)

  /** A client can tell the refusal from its message alone: no two refusals share one. */
  lemma MessagesDistinct(e1: EligibilityError, e2: EligibilityError)
    ensures EligibilityMessage(e1) == EligibilityMessage(e2) ==> e1 == e2
  {
  }

  /** Some registration, in any status, links `user` to `event`. */
  function IsRegistered(regs: seq<Registration>, event: EventId, user: UserId): (registered: bool)
    ensures registered ==> RegistrationCount(regs, event) > 0
    ensures registered ==> exists i :: 0 <= i < |regs| && regs[i].user == user
  {
    exists i :: 0 <= i < |regs| && regs[i].event == event && regs[i].user == user
  }

  /**
   * The eligibility check for `user` against the stored registrations `regs`
   * at time `now`: closed, then no seats, then duplicate; the first failing
   * check is the one reported, and on success the input comes back unchanged.
   */
  function Validate(data: RegistrationData, user: UserId, regs: seq<Registration>, now: int)
    : (r: Result<RegistrationData, EligibilityError>)
    ensures r.Ok? ==> r.value == data
    ensures r.Ok? <==>
      IsRegistrationOpen(data.event, now) && AvailableSeats(data.event, regs) > 0
      && !IsRegistered(regs, data.event.id, user)
    ensures r == Err(RegistrationClosed) <==> !IsRegistrationOpen(data.event, now)
    ensures r == Err(NoAvailableSeats) <==>
      IsRegistrationOpen(data.event, now) && AvailableSeats(data.event, regs) <= 0
    ensures r == Err(AlreadyRegistered) <==>
      IsRegistrationOpen(data.event, now) && AvailableSeats(data.event, regs) > 0
      && IsRegistered(regs, data.event.id, user)
  {
    var event := data.event;
    if !IsRegistrationOpen(event, now) then Err(RegistrationClosed)
    else if AvailableSeats(event, regs) <= 0 then Err(NoAvailableSeats)
    else if IsRegistered(regs, event.id, user) then Err(AlreadyRegistered)
    else Ok(data)
  }

  /**
   * The text of the error the check raises: the message of the first failing
   * test, in the serializer's order; a passing request raises none.
   */
  lemma RefusalMessage(data: RegistrationData, user: UserId, regs: seq<Registration>, now: int)
    ensures var r := Validate(data, user, regs, now);
      r.Err? ==>
        (EligibilityMessage(r.error) ==
           if !IsRegistrationOpen(data.event, now) then "Event registration is closed"
           else if AvailableSeats(data.event, regs) <= 0 then "No available seats"
           else "You are already registered for this event")
  {
  }

  /** A closed event is refused as closed whatever its seats and registrations. */
  lemma ClosedEventRefused(data: RegistrationData, user: UserId, regs: seq<Registration>, now: int)
    requires !data.event.isActive || data.event.date <= now
    ensures Validate(data, user, regs, now) == Err(RegistrationClosed)
  {
  }

  /** An open event holding capacity-many registrations (of any status) is refused as full. */
  lemma FullEventRefused(data: RegistrationData, user: UserId, regs: seq<Registration>, now: int)
    requires IsRegistrationOpen(data.event, now)
    requires RegistrationCount(regs, data.event.id) >= data.event.capacity
    ensures Validate(data, user, regs, now) == Err(NoAvailableSeats)
  {
  }

  /**
   * Any earlier registration of the user for the event, cancelled ones
   * included, makes every later attempt fail, so a cancelled user never
   * registers again.
   */
  lemma EarlierRegistrationBlocks(data: RegistrationData, user: UserId, regs: seq<Registration>, now: int, i: nat)
    requires i < |regs| && regs[i].event == data.event.id && regs[i].user == user
    ensures Validate(data, user, regs, now).Err?
    ensures IsRegistrationOpen(data.event, now) && AvailableSeats(data.event, regs) > 0
      ==> Validate(data, user, regs, now) == Err(AlreadyRegistered)
  {
  }

  /**
   * On an open event with capacity - 1 registrations, none of them the user's,
   * the last seat is granted.
   */
  lemma LastSeatGranted(data: RegistrationData, user: UserId, regs: seq<Registration>, now: int)
    requires IsRegistrationOpen(data.event, now)
    requires RegistrationCount(regs, data.event.id) + 1 == data.event.capacity
    requires forall i :: 0 <= i < |regs| ==> regs[i].event != data.event.id || regs[i].user != user
    ensures Validate(data, user, regs, now) == Ok(data)
  {
  }

  /** Admitting a registration that passed the check keeps its event within capacity. */
  lemma AdmissionWithinCapacity(data: RegistrationData, user: UserId, regs: seq<Registration>, now: int, r: Registration)
    requires Validate(data, user, regs, now).Ok?
    requires r.event == data.event.id
    ensures RegistrationCount(regs + [r], data.event.id) <= data.event.capacity
  {
    CountAppend(regs, r, data.event.id);
  }

  /** Admitting a registration that passed the check keeps (event, user) pairs unique. */
  lemma AdmissionKeepsPairsUnique(data: RegistrationData, user: UserId, regs: seq<Registration>, now: int, r: Registration)
    requires UniquePairs(regs)
    requires Validate(data, user, regs, now).Ok?
    requires r.event == data.event.id && r.user == user
    ensures UniquePairs(regs + [r])
  {
  }

  /** The date check: a date before `now` is refused, `now` and later come back unchanged. */
  function ValidateDate(value: int, now: int): (r: Result<int, string>)
    ensures r.Ok? <==> now <= value
    ensures r.Ok? ==> r.value == value
    ensures r.Err? ==> r.error == "Event date cannot be in the past"
  {
    if value < now then Err("Event date cannot be in the past") else Ok(value)
  }

  /** Why an event's date is refused: by the column's own validator, or with validate_date's text. */
  datatype DateError = FieldMinimum(limit: int) | DateMessage(message: string)

  /**
   * The date as the event serializer checks it: the validator copied from the
   * model column runs first, reading the clock as `fieldNow`, and validate_date
   * runs only on a value it accepted, reading the clock again as `methodNow`.
   */
  function ValidateEventDate(value: int, fieldNow: int, methodNow: int): (r: Result<int, DateError>)
    ensures r.Ok? <==> fieldNow <= value && methodNow <= value
    ensures r.Ok? ==> r.value == value
    ensures value < fieldNow ==> r == Err(FieldMinimum(fieldNow))
    ensures fieldNow <= value < methodNow ==> r == Err(DateMessage("Event date cannot be in the past"))
  {
    match CheckDateMinimum(value, fieldNow)
    case Err(e) => Err(FieldMinimum(e.limit))
    case Ok(v) =>
      match ValidateDate(v, methodNow)
      case Err(msg) => Err(DateMessage(msg))
      case Ok(d) => Ok(d)
  }

  /**
   * With one reading of the clock the column's validator decides alone: a past
   * date is refused by it, and validate_date's own message is never reported.
   */
  lemma ColumnValidatorDecides(value: int, now: int)
    ensures ValidateEventDate(value, now, now).Err? ==> ValidateEventDate(value, now, now) == Err(FieldMinimum(now))
    ensures ValidateEventDate(value, now, now) != Err(DateMessage("Event date cannot be in the past"))
  {
  }
}
