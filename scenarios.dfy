/**
 * Callers of the registration store that rely only on its contracts: the
 * lifecycle scenarios the system is expected to show, including the
 * consequences of counting cancelled registrations as taken seats.
 */
module Scenarios {
  import opened Results
  import opened EventModels
  import opened EventSerializers
  import opened EventViews

  /** A second cancel of the same registration never succeeds; after an error it repeats the same error. */
  method CancelTwice(store: Store, id: RegistrationId, requester: Http.UserId, now: int)
    returns (first: Result<Registration, CancelError>, second: Result<Registration, CancelError>)
    requires store.Valid()
    modifies store
    ensures store.Valid()
    ensures first.Ok? ==> first.value.status == Cancelled && second == Err(AlreadyCancelled)
    ensures first.Err? ==> second == first && store.registrations == old(store.registrations)
  {
    first := store.Cancel(id, requester, now);
    if first.Ok? {
      ghost var k := FindOwned(old(store.registrations), id, requester).value;
      ghost var regs := store.registrations;
      assert regs[k].id == id && regs[k].user == requester && regs[k].status == Cancelled;
      ghost var k' := FindOwned(regs, id, requester);
      assert k'.Some?;
      assert k'.value == k;
    }
    second := store.Cancel(id, requester, now);
  }

  /**
   * Registering the same user twice: the second attempt always fails, as a
   * duplicate unless the first attempt took the last seat, in which case the
   * seat check, which runs first, reports the event full.
   */
  method RegisterTwice(store: Store, e: EventId, user: Http.UserId, now: int)
    returns (first: Result<Registration, RegisterError>, second: Result<Registration, RegisterError>)
    requires store.Valid() && e in store.events
    modifies store
    ensures store.Valid()
    ensures first.Ok? ==> second.Err?
    ensures first.Err? ==> second == first
    ensures first.Ok? ==>
      (second == Err(Ineligible(NoAvailableSeats)) <==>
         RegistrationCount(old(store.registrations), e) + 1 == old(store.events)[e].capacity)
    ensures first.Ok? ==> second == Err(Ineligible(NoAvailableSeats)) || second == Err(Ineligible(AlreadyRegistered))
  {
    first := store.Register(e, user, now);
    if first.Ok? {
      ghost var regs := store.registrations;
      assert regs[|regs| - 1].event == e && regs[|regs| - 1].user == user;
      assert IsRegistered(regs, e, user);
      CountAppend(old(store.registrations), first.value, e);
    }
    second := store.Register(e, user, now);
  }

  /**
   * One seat, two users: the first is admitted as pending and unpaid with a
   * confirmation queued, the second is refused because the event is full.
   */
  method OneSeatTwoUsers(now: int) returns (a: Result<Registration, RegisterError>, b: Result<Registration, RegisterError>)
    ensures a.Ok? && a.value.status == Pending && a.value.payment == PaymentPending && a.value.user == 1
    ensures b == Err(Ineligible(NoAvailableSeats))
  {
    var store := new Store();
    var ev := store.CreateEvent(7, 1, now + 86400, true, now);
    assert store.registrations == [];
    a := store.Register(ev.value.id, 1, now);
    assert store.registrations == [a.value];
    b := store.Register(ev.value.id, 2, now);
  }

  /** A cancel frees no seat: on a one-seat event nobody else can register after it. */
  method CancelledSeatStaysTaken(now: int)
    returns (cancel: Result<Registration, CancelError>, other: Result<Registration, RegisterError>)
    ensures cancel.Ok? && cancel.value.status == Cancelled
    ensures other == Err(Ineligible(NoAvailableSeats))
  {
    var store := new Store();
    var ev := store.CreateEvent(7, 1, now + 1, true, now);
    assert store.registrations == [];
    var first := store.Register(ev.value.id, 1, now);
    assert store.registrations == [first.value];
    assert FindOwned(store.registrations, first.value.id, 1) == Some(0);
    cancel := store.Cancel(first.value.id, 1, now);
    assert store.registrations == [cancel.value];
    other := store.Register(ev.value.id, 2, now);
  }

  /** A cancelled user cannot come back: even with a seat left, the duplicate check matches the cancelled record. */
  method CancelledUserCannotReturn(now: int)
    returns (cancel: Result<Registration, CancelError>, again: Result<Registration, RegisterError>)
    ensures cancel.Ok? && cancel.value.status == Cancelled
    ensures again == Err(Ineligible(AlreadyRegistered))
  {
    var store := new Store();
    var ev := store.CreateEvent(7, 2, now + 1, true, now);
    assert store.registrations == [];
    var first := store.Register(ev.value.id, 1, now);
    assert store.registrations == [first.value];
    assert FindOwned(store.registrations, first.value.id, 1) == Some(0);
    cancel := store.Cancel(first.value.id, 1, now);
    assert store.registrations == [cancel.value];
    again := store.Register(ev.value.id, 1, now);
  }
}
