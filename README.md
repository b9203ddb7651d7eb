# Event registration lifecycle — a Dafny model

This project models the core of a small event-management web backend: events
with a seat capacity, registrations linking a user to an event, the ordered
eligibility check run before a registration is saved (closed → no seats →
duplicate), the register and cancel actions that update the store of
registrations, and the pure decision functions around them (object
permissions, the action → permission-class maps, the sign-up password check,
and the upload-path builder).

Layout, one module per source file:

| file | module | source |
|---|---|---|
| results.dfy | `Results` | Option / Result values for error paths |
| http.dfy | `Http` | the request parts the permission classes read; the framework's safe methods |
| events_models.dfy | `EventModels` | events/models.py |
| events_serializers.dfy | `EventSerializers` | events/serializers.py |
| events_permissions.dfy | `EventPermissions` | events/permissions.py |
| core_permissions.dfy | `CorePermissions` | core/permissions.py |
| events_views.dfy | `EventViews` | events/views.py |
| utils_helpers.dfy | `Helpers` | utils/helpers.py (`get_file_upload_path`) |
| users_serializers.dfy | `UserSerializers` | users/serializers.py |
| scenarios.dfy | `Scenarios` | callers of the store, using only its contracts |

The store (`EventViews.Store`) is a class whose fields are the two tables
(`events: map<EventId, Event>`, `registrations: seq<Registration>`), the next
keys the database hands out, and an `outbox` of confirmation jobs. Its
invariant (`StoreInvariant`) says: every registration names a stored event,
registration keys are unique, (event, user) pairs are unique, and no event
holds more registrations than its capacity. `Register`, `Cancel` and
`CreateEvent` state their whole new state and keep the invariant; the
preservation lemmas are stated on values beside the class.

The clock is a parameter `now: int` of every operation that reads it; the
upload path's timestamp and model name are string parameters. The mail task
is represented only by the `RegistrationEmail` entry a successful
registration appends to the outbox, after the registration itself.

Two behaviours of the code are kept as written and proved, not corrected:

- `available_seats` counts every registration of the event, cancelled ones
  included (events/models.py:42). `StatusChangeKeepsSeats` and
  `Store.Cancel` show that a cancel frees no seat; `Scenarios.CancelledSeatStaysTaken`
  shows a one-seat event staying full after its only registration is cancelled.
- The duplicate check matches a registration in any status
  (events/serializers.py:100). `EarlierRegistrationBlocks` and
  `Scenarios.CancelledUserCannotReturn` show that a user who cancelled can
  never register for that event again.

Other behaviours of the code that the model keeps as written:

- Registering the same user twice: the second attempt fails as a duplicate
  *unless* the first one took the last seat, in which case the seat check,
  which runs before the duplicate check, reports `NoAvailableSeats`
  (`Scenarios.RegisterTwice`).
- Capacity is a positive-integer column, which admits 0; it is a `nat`.
- Cancel looks the registration up in the requester's own registrations
  (events/views.py:98, 115), so nobody, staff included, can cancel another
  user's registration; an unknown or foreign key gives `RegistrationNotFound`.
- The cancel refusal for a past event is named `PastEvent`; an event dated
  exactly `now` can still be cancelled (the test is `date < now`).

## Model

| member | source | states |
|---|---|---|
| EventModels.StatusValue | events/models.py:57-65 | the value stored for a status is one of "pending", "confirmed", "cancelled" |
| EventModels.ParseStatus | events/models.py:57-65 | a stored status value is accepted exactly when it is one of the three choices |
| EventModels.StatusChoicesRoundTrip | events/models.py:57-65 | storing a status and reading it back gives it again; every accepted value reads back to itself |
| EventModels.PaymentValue | events/models.py:66-74 | the value stored for a payment status is one of "pending", "paid", "refunded" |
| EventModels.ParsePayment | events/models.py:66-74 | a stored payment value is accepted exactly when it is one of the three choices |
| EventModels.PaymentChoicesRoundTrip | events/models.py:66-74 | storing a payment status and reading it back gives it again; every accepted value reads back to itself |
| EventModels.RegistrationCount | events/models.py:42 | the count of an event's registrations is at most the number of registrations, and is positive iff some registration (any status) names the event |
| EventModels.AvailableSeats | events/models.py:37-42 | seats never exceed capacity, and equal it iff no registration of any status names the event |
| EventModels.CheckDateMinimum | events/models.py:14 | the date column's validator refuses exactly the values below the current time, naming that limit, and passes the others unchanged |
| EventModels.UniquePairs | events/models.py:77 | no two registrations share an (event, user) pair: a pair locates at most one registration; zero or one registrations are always unique |
| EventModels.IsRegistrationOpen | events/models.py:44-48 | an inactive event is never open; an event dated at or before now is never open |
| EventModels.ClosedStaysClosed | events/models.py:44-48 | once registration is closed it stays closed at every later time |
| EventModels.ClosedWhenInactiveOrDue | events/models.py:44-48 | registration is open iff the event is active and dated strictly after now; inactive events are never open; at or after the event date it is closed |
| EventModels.CountAppend | events/models.py:42 | appending a registration raises its own event's count by one and leaves every other event's count unchanged |
| EventModels.CountReplace | events/models.py:42 | replacing a registration by one for the same event leaves every event's count unchanged |
| EventModels.AnyRegistrationTakesASeat | events/models.py:37-42 | a new registration of the event, in any status including cancelled, takes exactly one seat |
| EventModels.StatusChangeKeepsSeats | events/models.py:37-42 | changing only the status of a registration (to cancelled or anything else) leaves available seats unchanged |
| EventSerializers.EligibilityMessage | events/serializers.py:94-101 | every refusal has a non-empty message |
| EventSerializers.MessagesDistinct | events/serializers.py:94-101 | no two refusals share a message, so the message identifies the reason |
| EventSerializers.RefusalMessage | events/serializers.py:94-101 | a refused registration carries the message of the first failing test: closed, then no seats, then already registered |
| EventSerializers.IsRegistered | events/serializers.py:100 | a registered pair means the event's registration count is positive and the user has some registration |
| EventSerializers.Validate | events/serializers.py:87-103 | success iff open, seats > 0 and no earlier registration of the pair; the reported error is the first failing check in the order closed, seats, duplicate; on success the input data comes back unchanged |
| EventSerializers.ClosedEventRefused | events/serializers.py:94-95 | an inactive or due event is refused as closed whatever its seats and registrations |
| EventSerializers.FullEventRefused | events/serializers.py:97-98 | an open event with capacity-many registrations of any status is refused with no available seats |
| EventSerializers.EarlierRegistrationBlocks | events/serializers.py:100-101 | any earlier registration of the user for the event, cancelled included, makes the check fail, as a duplicate once the event is open and has seats |
| EventSerializers.LastSeatGranted | events/serializers.py:94-103 | an open event with capacity - 1 registrations, none of them the user's, admits the user |
| EventSerializers.AdmissionWithinCapacity | events/serializers.py:97-98 | a registration that passed the check, once appended, leaves its event within capacity |
| EventSerializers.AdmissionKeepsPairsUnique | events/serializers.py:100-101 | a registration that passed the check, once appended, keeps (event, user) pairs unique |
| EventSerializers.ValidateDate | events/serializers.py:53-56 | validate_date alone: a date before now is refused with "Event date cannot be in the past"; now and later are accepted and returned unchanged |
| EventSerializers.ValidateEventDate | events/serializers.py:39-56 | the column's validator runs before validate_date: a date below its clock reading is refused by the validator; one it accepts but below validate_date's later reading gets validate_date's message; only a date at or after both readings passes, unchanged |
| EventSerializers.ColumnValidatorDecides | events/serializers.py:39-56 | with a single clock reading every refusal is the column validator's, and validate_date's message is never reported |
| EventPermissions.HasObjectPermission | events/permissions.py:11-18 | safe methods and the organizer always pass; for an anonymous request it passes iff the method is safe |
| EventPermissions.SafeMethodsAllowed | events/permissions.py:15-16 | GET, HEAD and OPTIONS pass for every requester on every event |
| EventPermissions.WritesOnlyByOrganizer | events/permissions.py:18 | any other method passes iff the requester is the event's organizer |
| EventPermissions.DependsOnlyOnOrganizer | events/permissions.py:11-18 | two events with the same organizer get the same decision for every request |
| CorePermissions.IsAdminOrReadOnly | core/permissions.py:11-14 | safe methods always pass; an anonymous request passes iff the method is safe |
| CorePermissions.IsOwnerOrReadOnly | core/permissions.py:20-24 | safe methods and the owner always pass; an anonymous request passes iff the method is safe |
| CorePermissions.SafeMethodsAllowed | core/permissions.py:12-23 | safe methods pass both IsAdminOrReadOnly and IsOwnerOrReadOnly for everyone |
| CorePermissions.AdminWritesOnly | core/permissions.py:14 | a non-safe method passes IsAdminOrReadOnly iff a user is present and is staff |
| CorePermissions.OwnerWritesOnly | core/permissions.py:24 | a non-safe method passes IsOwnerOrReadOnly iff the requester is the object's user |
| CorePermissions.OutsidersRefusedWrites | core/permissions.py:14-24 | anonymous and non-staff users are refused every non-safe method by IsAdminOrReadOnly; non-owners by IsOwnerOrReadOnly |
| EventViews.EventViewPermissions | events/views.py:35-43 | every event action first requires authentication; IsEventOrganizer is added exactly for create, update, partial_update and destroy; IsAdminUser never |
| EventViews.RegistrationViewPermissions | events/views.py:100-108 | one class per registration action; IsAdminUser exactly for destroy |
| EventViews.HasPermission | events/views.py:39-42 | the request-level test of a class: a staff user passes every class; an anonymous request passes only IsEventOrganizer, which has no request-level test |
| EventViews.HasObjectPermission | events/views.py:39-40 | the object-level test of a class: safe methods and the organizer pass every class; only IsEventOrganizer can refuse |
| EventViews.PermitsRequest | events/views.py:39-43 | a request gets through when every listed class passes, in any order; with IsAuthenticated listed an anonymous request never does |
| EventViews.PermitsEvent | events/views.py:39-40 | a request reaches a loaded event only if it passes the request level, and with IsEventOrganizer listed a non-safe method only from the organizer |
| EventViews.EventWritesNeedOrganizer | events/views.py:39-40 | for update, partial_update and destroy with a non-safe method, a request reaches the event iff it comes from the event's organizer |
| EventViews.CreateNeedsOnlyLogin | events/views.py:39-49 | create gets through iff a user is signed in: no event is loaded, so IsEventOrganizer refuses no one, and the creator becomes the organizer |
| EventViews.OtherEventActionsNeedLogin | events/views.py:41-42 | every other event action, register included, gets through iff a user is signed in |
| EventViews.RegistrationActionsAccess | events/views.py:104-107 | deleting a registration passes the permission check iff the user is staff; any other registration action passes it iff a user is signed in |
| EventViews.OwnedRegistrations | events/views.py:94-98 | the queryset holds exactly the stored registrations whose user is the requester |
| EventViews.FindOwned | events/views.py:115 | the lookup finds a position holding the key and owned by the requester, and finds none iff no such registration exists |
| EventViews.FindOwnedMatchesQueryset | events/views.py:98 | the key lookup succeeds iff the requester's queryset holds a registration with that key |
| EventViews.StoreInvariant | events/models.py:77 | the invariant of the stored tables; it implies every registration names an event key below the next free one |
| EventViews.SeatsNeverNegative | events/models.py:37-42 | in tables that keep the invariant no stored event shows negative available seats |
| EventViews.CreateEventKeepsInvariant | events/views.py:45-49 | adding an event under the next free key keeps the store invariant |
| EventViews.RegisterKeepsInvariant | events/views.py:56-63 | saving a pending, unpaid registration that passed the eligibility check keeps per-event count within capacity, unique pairs and unique keys |
| EventViews.CancelKeepsInvariant | events/views.py:129-130 | setting one registration's status to cancelled keeps the store invariant |
| EventViews.Store.CreateEvent | events/views.py:45-49 | a past date is refused by the date column's validator, naming `now` as the limit, and nothing changes; otherwise the event is stored under the next key with the requester as organizer |
| EventViews.Store.Register | events/views.py:51-75 | unknown event: EventNotFound; failed check: that error, no registration, no mail; success: exactly one pending, unpaid registration for (event, user) appended, then exactly one mail job carrying its key; events untouched; invariant kept |
| EventViews.Store.Cancel | events/views.py:110-135 | not the requester's or unknown: RegistrationNotFound; already cancelled: AlreadyCancelled; event before now: PastEvent; on every error nothing changes; otherwise only that registration's status becomes cancelled, payment and all others untouched, available seats unchanged |
| Helpers.Split | utils/helpers.py:40 | the pieces are at least one, hold no separator, and are a single piece iff the string holds no separator |
| Helpers.Join | utils/helpers.py:40 | the inverse of `split('.')` used to state that splitting loses nothing (see JoinSplit); the joined string begins with the first piece |
| Helpers.Extension | utils/helpers.py:40 | the extension holds no '.', and is the whole file name when it has no '.' |
| Helpers.FileUploadPath | utils/helpers.py:29-42 | the path begins with the model name and '/', has a '.' right after the timestamp, and holds no '.' after it |
| Helpers.JoinSplit | utils/helpers.py:40 | joining the pieces with the separator gives the original string back |
| Helpers.ExtensionAfterLastDot | utils/helpers.py:40 | the extension holds no '.', ends the file name, is preceded by a '.' unless it is the whole name, and is the whole name iff the name has no '.' |
| Helpers.TrailingDotEmptyExtension | utils/helpers.py:40 | a file name ending in '.' has an empty extension |
| Helpers.UploadPathShape | utils/helpers.py:29-42 | the path is model name, '/', timestamp, '.', then the dot-free tail after the file name's last '.'; a name ending in '.' gives a path ending in '.' |
| Helpers.SameExtensionSamePath | utils/helpers.py:40-42 | two file names with the same extension give the same path for the same model and timestamp |
| UserSerializers.Validate | users/serializers.py:36-42 | mismatched passwords fail with an error keyed "password"; matching ones return the fields unchanged |
| UserSerializers.ValidatedData.Pop | users/serializers.py:48 | popping a present key returns its value and removes exactly that key |
| UserSerializers.Create | users/serializers.py:44-50 | the confirmation field is removed from the validated data in place, and every other field, the password included, is passed to create_user unchanged |
| UserSerializers.ValidateAndCreate | users/serializers.py:36-50 | on the field-validated attrs, creation happens iff the passwords match, and then receives every field but the confirmation, unchanged |
| Scenarios.CancelTwice | events/views.py:117-130 | after a successful cancel a second cancel fails as already cancelled; after a failed one it fails the same way and nothing changed |
| Scenarios.RegisterTwice | events/views.py:56-63 | after a successful first registration a second one of the same pair fails: as no seats iff the first took the last seat, as a duplicate otherwise; after a failed first attempt the second fails the same way |
| Scenarios.OneSeatTwoUsers | events/views.py:51-75 | on a one-seat event the first user is admitted pending and unpaid, the second refused with no available seats |
| Scenarios.CancelledSeatStaysTaken | events/models.py:42 | after the only registration of a one-seat event is cancelled, another user is still refused with no available seats |
| Scenarios.CancelledUserCannotReturn | events/serializers.py:100-101 | a user who cancelled is refused as already registered even though a seat is free |

## Left out

- Concurrency: operations are sequential and atomic. The race between the eligibility check and the insert, where the database's unique constraint on (event, user) is the backstop, is not modelled; the invariant is kept by the check alone.
- The clock (`timezone.now()`, `datetime.now()`) is a parameter; the `strftime` formatting of the upload timestamp is not modelled (the timestamp arrives as a string).
- The mail task (notifications/tasks.py) and its queueing: mail rendering and delivery are I/O; only the job appended to the outbox is modelled. A failure of the queue call itself, which in the code would surface after the registration was saved, is not modelled.
- `send_email_notification` and `format_date_range` (utils/helpers.py): mail I/O and locale-dependent date formatting.
- Event fields no logic reads (title, description, location, price, timestamps) are omitted; `registration_date` and the `-registration_date` ordering are replaced by insertion order.
- The framework's generic update and destroy actions on events and registrations are not modelled. In particular an organizer lowering an event's capacity below its registration count, a registration's owner editing its `status`/`payment_status` through the generic update, and a staff user deleting one of their own registrations (the queryset of events/views.py:98 limits destroy to those; deleting would free a seat) are outside the model and outside the invariant.
- EventViews.EventWritesNeedOrganizer: covers update, partial_update and destroy only. Create also lists IsEventOrganizer, but the framework runs object-level checks only when a view loads an object, and create loads none; create is covered by `EventViews.CreateNeedsOnlyLogin` instead.
- EventViews.Store.CreateEvent: the column validator's refusal is the value `FieldMinimum(now)`; its rendered text ("Ensure this value is greater than or equal to …", produced by the framework) is not modelled. The store reads the clock once for both date checks; the two separate readings are modelled only in `EventSerializers.ValidateEventDate`.
- UserSerializers.ValidateAndCreate: starts from the field-validated attrs. The field-level parsing and validators that run before `validate` are not modelled: whitespace trimming of the password fields, the uniqueness of email and username, and the required and blank checks. A submission refused by them, or changed by trimming, does not reach the model.
- HTTP status codes, response bodies and JSON rendering: only the ok/error distinction and the error kind are modelled.
- Authentication: operations take the signed-in user's key; the anonymous case appears only in the permission predicates.
- events/filters.py (query construction delegated to the filtering library and the database), users/views.py, users/models.py, the migration, the serializer field lists and `CustomTokenObtainPairSerializer` (token issuance in a foreign library) are not part of this model.
- `create_user` is outside the model: `UserSerializers.Create` returns the keyword arguments it would be called with.
