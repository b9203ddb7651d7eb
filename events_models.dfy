/**
 * Events and registrations (events/models.py): the two records the registration
 * lifecycle works on, the seat count derived from the registrations of an event,
 * and the registration-window predicate.
 */
module EventModels {
  import opened Results
  import opened Http

  type EventId = nat
  type RegistrationId = nat

  /**
   * An event, reduced to the fields the core reads. Times are integers on one
   * clock; `capacity` is a positive-integer column, so it cannot be negative.
   */
  datatype Event = Event(id: EventId, organizer: UserId, capacity: nat, date: int, isActive: bool)

  /** The three choices of the `status` column. */
  datatype Status = Pending | Confirmed | Cancelled

  /** The three choices of the `payment_status` column. */
  datatype PaymentStatus = PaymentPending | Paid | Refunded

  datatype Registration = Registration(
    id: RegistrationId,
    event: EventId,
    user: UserId,
    status: Status,
    payment: PaymentStatus)

  const StatusChoices: seq<string> := ["pending", "confirmed", "cancelled"]
  const PaymentChoices: seq<string> := ["pending", "paid", "refunded"]

  /** The value stored in the `status` column. */
  function StatusValue(s: Status): (v: string)
    ensures v in StatusChoices
  {
    match s
    case Pending => "pending"
    case Confirmed => "confirmed"
    case Cancelled => "cancelled"
  }

  /** Reads a `status` column value; anything outside the choices is rejected. */
  function ParseStatus(v: string): (s: Option<Status>)
    ensures s.Some? <==> v in StatusChoices
  {
    if v == "pending" then Some(Pending)
    else if v == "confirmed" then Some(Confirmed)
    else if v == "cancelled" then Some(Cancelled)
    else None
  }

  /** The value stored in the `payment_status` column. */
  function PaymentValue(p: PaymentStatus): (v: string)
    ensures v in PaymentChoices
  {
    match p
    case PaymentPending => "pending"
    case Paid => "paid"
    case Refunded => "refunded"
  }

  /** Reads a `payment_status` column value; anything outside the choices is rejected. */
  function ParsePayment(v: string): (p: Option<PaymentStatus>)
    ensures p.Some? <==> v in PaymentChoices
  {
    if v == "pending" then Some(PaymentPending)
    else if v == "paid" then Some(Paid)
    else if v == "refunded" then Some(Refunded)
    else None
  }

  /** Storing a status and reading it back gives the same status, and every stored value reads back. */
  lemma StatusChoicesRoundTrip(s: Status, v: string)
    ensures ParseStatus(StatusValue(s)) == Some(s)
    ensures ParseStatus(v).Some? ==> StatusValue(ParseStatus(v).value) == v
  {
  }

  lemma PaymentChoicesRoundTrip(p: PaymentStatus, v: string)
    ensures ParsePayment(PaymentValue(p)) == Some(p)
    ensures ParsePayment(v).Some? ==> PaymentValue(ParsePayment(v).value) == v
  {
  }

  /**
   * The number of registrations of `regs` that belong to `event`, whatever their
   * status: the related-manager count behind `available_seats`.
   */
  function RegistrationCount(regs: seq<Registration>, event: EventId): (n: nat)
    ensures n <= |regs|
    ensures n > 0 <==> exists i :: 0 <= i < |regs| && regs[i].event == event
  {
    if regs == [] then 0
    else (if regs[0].event == event then 1 else 0) + RegistrationCount(regs[1..], event)
  }

  /** Seats left: the capacity less every registration of the event, cancelled ones included. */
  function AvailableSeats(ev: Event, regs: seq<Registration>): (seats: int)
    ensures seats <= ev.capacity
    ensures seats == ev.capacity <==> forall i :: 0 <= i < |regs| ==> regs[i].event != ev.id
  {
    ev.capacity - RegistrationCount(regs, ev.id)
  }

  /** The refusal of the `date` column's MinValueValidator(timezone.now), naming the limit it compared with. */
  datatype MinValueError = BelowMinimum(limit: int)

  /** The `date` column's own validator: a value below the current time is refused, any other passes unchanged. */
  function CheckDateMinimum(value: int, now: int): (r: Result<int, MinValueError>)
    ensures r.Ok? <==> now <= value
    ensures r.Ok? ==> r.value == value
    ensures r.Err? ==> r.error.limit == now
  {
    if value < now then Err(BelowMinimum(now)) else Ok(value)
  }

  /** Registration is open while the event is active and still strictly in the future. */
  function IsRegistrationOpen(ev: Event, now: int): (open: bool)
    ensures !ev.isActive ==> !open
    ensures ev.date <= now ==> !open
  {
    ev.isActive && ev.date > now
  }

  /** Once registration has closed it stays closed at every later time. */
  lemma ClosedStaysClosed(ev: Event, now: int, later: int)
    requires now <= later && !IsRegistrationOpen(ev, now)
    ensures !IsRegistrationOpen(ev, later)
  {
  }

  /** An inactive event is closed at every time, and any event is closed from its own date on. */
  lemma ClosedWhenInactiveOrDue(ev: Event, now: int)
    ensures !ev.isActive ==> !IsRegistrationOpen(ev, now)
    ensures ev.date <= now ==> !IsRegistrationOpen(ev, now)
    ensures IsRegistrationOpen(ev, now) <==> ev.isActive && now < ev.date
  {
  }

  /** At most one registration per (event, user) pair: the `unique_together` constraint. */
  ghost function UniquePairs(regs: seq<Registration>): (unique: bool)
    ensures unique ==> forall i, j ::
      0 <= i < |regs| && 0 <= j < |regs| && regs[i].event == regs[j].event && regs[i].user == regs[j].user ==> i == j
    ensures |regs| <= 1 ==> unique
  {
    forall i, j :: 0 <= i < j < |regs| ==> regs[i].event != regs[j].event || regs[i].user != regs[j].user
  }

  /** Appending one registration raises its own event's count by one and no other. */
  lemma {:induction false} CountAppend(regs: seq<Registration>, r: Registration, event: EventId)
    ensures RegistrationCount(regs + [r], event)
         == RegistrationCount(regs, event) + (if r.event == event then 1 else 0)
  {
    if regs != [] {
      assert (regs + [r])[1..] == regs[1..] + [r];
      CountAppend(regs[1..], r, event);
    }
  }

  /** Replacing one registration by another of the same event leaves every count as it was. */
  lemma {:induction false} CountReplace(regs: seq<Registration>, i: nat, r: Registration, event: EventId)
    requires i < |regs| && r.event == regs[i].event
    ensures RegistrationCount(regs[i := r], event) == RegistrationCount(regs, event)
  {
    if i > 0 {
      assert regs[i := r][1..] == regs[1..][i - 1 := r];
      CountReplace(regs[1..], i - 1, r, event);
    } else {
      assert regs[i := r][1..] == regs[1..];
    }
  }

  /** A cancelled registration occupies a seat exactly as a pending or confirmed one does. */
  lemma AnyRegistrationTakesASeat(ev: Event, regs: seq<Registration>, r: Registration)
    requires r.event == ev.id
    ensures AvailableSeats(ev, regs + [r]) == AvailableSeats(ev, regs) - 1
  {
    CountAppend(regs, r, ev.id);
  }

  /** Changing only the status of a registration, to cancelled or anything else, frees no seat. */
  lemma StatusChangeKeepsSeats(ev: Event, regs: seq<Registration>, i: nat, s: Status)
    requires i < |regs|
    ensures AvailableSeats(ev, regs[i := regs[i].(status := s)]) == AvailableSeats(ev, regs)
  {
    CountReplace(regs, i, regs[i].(status := s), ev.id);
  }
}
