# Event management backend, modelled in Dafny

This project models the core of a NestJS backend for events, attendees and
registrations:

- the pure helpers: capacity statistics, pagination, start-time overlap,
  email validation, response projections and cache keys;
- the three services that create, read and delete rows, with their
  admission rules;
- the email job builders;
- the hourly reminder scheduler.

The database is three tables. Each table is a sequence of rows in storage
order, held by a `Database` object whose methods insert, replace and delete
rows. The side effects are objects whose state the services change:

- the cache is a map from key to value;
- the web-socket gateway is the log of notifications it broadcast;
- the email service is the queue of jobs it enqueued.

Each service is a class over these objects. Its methods run the source's
checks in the source's order and return a `Result`. `NotFound` and
`BadRequest` carry the source's messages. The checks are also written as
functions of the tables (`CheckCreate`, `CheckUpdate`, `CheckRemove`), and
each method's postcondition ties the new state to those functions and the
old state.

`Store.Consistent` states the integrity rules of the store:

- event, attendee and registration ids are unique;
- attendee emails are unique;
- each (event, attendee) pair is registered at most once;
- every registration names an existing event and attendee;
- no event has more registrations than its `maxAttendees`.

Every state-changing method requires these rules and re-establishes them.
Lemmas state the properties that span several operations: cache-aside
reads, key invalidation, notice arithmetic, and the reminder selection.

Times are integers (milliseconds). Fresh ids and the current time are
parameters of the operations that need them.

Modules:

- `common.dfy`: `Option`, `Result`, `Error`, JavaScript truthiness of an optional string.
- `seqs.dfy`: generic table operations (filter, first match, delete and replace by key, key uniqueness) and their lemmas.
- `store.dfy`: the rows, the lookups, `Consistent` and the `Database` class.
- `registration_util.dfy`, `pagination_util.dfy`, `date_util.dfy`, `attendee_util.dfy`: the shared helpers.
- `cache.dfy`, `gateway.dfy`, `email_service.dfy`: the cache, the broadcast log and the email queue.
- `registration_service.dfy`, `event_service.dfy`, `attendee_service.dfy`: the three services.
- `event_reminder_scheduler.dfy`: the reminder run.

## Model

| member | source | states |
|---|---|---|
| RegistrationUtil.CalculateStats | src/shared/utils/registration.util.ts:23-30 | `totalRegistrations` is the input count; available spots plus the count equal the maximum; fully booked exactly when the count reaches the maximum (spots at most the critical 0) |
| RegistrationUtil.ShouldSendCapacityWarning | src/shared/utils/registration.util.ts:32-35 | the warning fires exactly when 0 < spots <= 2 |
| RegistrationUtil.WarningAndFullyBookedExclusive | src/shared/utils/registration.util.ts:23-35 | warning and fully booked are never both true; the warning fires exactly when count < max <= count + 2 |
| RegistrationUtil.GenerateCacheKey | src/shared/utils/registration.util.ts:37-39 | the key is `registrations:event:` followed by the event id, which can be read back from it |
| RegistrationUtil.CacheKeyInjective | src/shared/utils/registration.util.ts:37-39 | distinct event ids give distinct keys |
| RegistrationUtil.CacheKeyIsNotRemovalKey | src/shared/utils/registration.util.ts:37-39 | this key never equals the `registrations:<eventId>` key that removing a registration deletes |
| RegistrationUtil.FormatResponse | src/shared/utils/registration.util.ts:5-21 | ids and `registeredAt` copied; the event summary (name, date, location) is present iff the event was loaded; the attendee summary (name, email) is present iff the attendee was loaded |
| PaginationUtil.GetPaginationParams | src/shared/utils/pagination.util.ts:4-10 | page >= 1, a missing or zero page gives 1; limit in [1, 100], a missing or zero limit gives 10, larger values are cut to 100 and negative ones raised to 1; skip = (page - 1) * limit |
| PaginationUtil.SkipBounds | src/shared/utils/pagination.util.ts:7 | skip is non-negative, zero exactly on the first page, and skip + limit = page * limit |
| PaginationUtil.NormaliseIdempotent | src/shared/utils/pagination.util.ts:4-10 | normalising a normalised page and limit gives them back |
| PaginationUtil.TotalPages | src/shared/utils/pagination.util.ts:18 | the ceiling of total / limit: 0 for no rows, else (n - 1) * limit < total <= n * limit |
| PaginationUtil.CreatePaginatedResponse | src/shared/utils/pagination.util.ts:12-27 | data and total unchanged, page and limit normalised, `totalPages` the ceiling of total / limit |
| DateUtil.AddHours | src/shared/utils/date.util.ts:2-6 | the result is the date moved by hours * 3 600 000 ms: later exactly for positive hours, equal exactly for zero hours |
| DateUtil.AddHoursCompose | src/shared/utils/date.util.ts:2-6 | adding a hours and then b hours adds a + b hours |
| DateUtil.IsOverlapping | src/shared/utils/date.util.ts:8-17 | two starts overlap exactly when each is less than one duration before the other |
| DateUtil.OverlapIffClose | src/shared/utils/date.util.ts:8-17 | two starts overlap exactly when they are less than one duration apart |
| DateUtil.OverlapSymmetric | src/shared/utils/date.util.ts:16 | overlap does not depend on the order of the two starts |
| DateUtil.OverlapBoundaries | src/shared/utils/date.util.ts:8-17 | starts exactly one duration apart do not overlap; equal starts overlap for a positive duration |
| AttendeeUtil.ValidateEmailIsPattern | src/shared/utils/attendee.util.ts:5-7 | the validator accepts exactly the strings of the email pattern read as a grammar (local part, `@`, domain, last `.`, at least two letters) |
| AttendeeUtil.AcceptedEmailMatches | src/shared/constants/attendee.constants.ts:12 | every accepted string has a split matching the pattern |
| AttendeeUtil.MatchedEmailAccepted | src/shared/constants/attendee.constants.ts:12 | every string with a matching split is accepted |
| AttendeeUtil.AcceptedEmailHasOneAt | src/shared/constants/attendee.constants.ts:12 | an accepted email contains exactly one `@` |
| AttendeeUtil.EmptyEmailRejected | src/shared/constants/attendee.constants.ts:12 | the empty string is rejected |
| AttendeeUtil.ValidateEmail | src/shared/utils/attendee.util.ts:5-7 | an accepted email has an `@` and at least six characters (local part, `@`, domain, `.`, two letters) |
| AttendeeUtil.GenerateCacheKey | src/shared/utils/attendee.util.ts:23-25 | the key is `attendees:` followed by the id, which can be read back from it |
| AttendeeUtil.CacheKeyInjective | src/shared/utils/attendee.util.ts:23-25 | distinct attendee ids give distinct keys |
| AttendeeUtil.FormatResponse | src/shared/utils/attendee.util.ts:9-21 | id, name and email copied; count and event list present iff registrations were loaded; the count is their number; the list has the same length and order, each entry its registration's event id, name and date |
| Cache.CacheService.Get | src/modules/cache/services/cache.service.ts:13-15 | returns the value under the key, or nothing when the key is absent |
| Cache.CacheService.Set | src/modules/cache/services/cache.service.ts:17-20 | the key holds the value afterwards; every other key is unchanged |
| Cache.CacheService.Del | src/modules/cache/services/cache.service.ts:22-24 | the key is absent afterwards; every other key is unchanged |
| Gateway.Room | src/modules/websocket/gateways/event.gateway.ts:46-74 | only a capacity update goes to a room, `event-<eventId>`; the other notifications go to every client |
| Gateway.Name | src/shared/constants/event.constants.ts:6-11 | each kind's socket event name is its `EVENT_WEBSOCKET_EVENTS` constant, and that constant names no other kind |
| Gateway.NamesDistinguishKinds | src/modules/websocket/gateways/event.gateway.ts:46-74 | two notifications have the same socket event name exactly when they are of the same kind |
| Gateway.EventGateway.NotifyEventCapacityUpdate | src/modules/websocket/gateways/event.gateway.ts:46-53 | appends one capacity update with the event id and the remaining spots |
| Gateway.EventGateway.NotifyNewEventCreated | src/modules/websocket/gateways/event.gateway.ts:55-60 | appends one `newEvent` carrying the event |
| Gateway.EventGateway.NotifyEventUpdated | src/modules/websocket/gateways/event.gateway.ts:62-67 | appends one `eventUpdated` carrying the event |
| Gateway.EventGateway.NotifyEventDeleted | src/modules/websocket/gateways/event.gateway.ts:69-74 | appends one `eventDeleted` carrying the id |
| Email.TemplateName | src/modules/email/services/email.service.ts:26-50 | the job name of a kind reads back as that kind |
| Email.Subject | src/modules/email/services/email.service.ts:28-52 | a subject line is the kind's prefix, then the event name at a fixed offset, then ` Tomorrow` for a reminder and nothing for the other kinds |
| Email.TemplateNameRoundTrip | src/modules/email/services/email.service.ts:25-59 | the three job names are distinct, and each name maps back to its kind |
| Email.SubjectMarks | src/modules/email/services/email.service.ts:28-52 | the subject lines of the three kinds differ at fixed positions |
| Email.SubjectDeterminesKindAndEvent | src/modules/email/services/email.service.ts:28-52 | a subject line determines its kind and its event name |
| Email.BuildJob | src/modules/email/services/email.service.ts:25-59 | the job name equals the payload's template and names the kind; `to` is the email; the context carries the event name and date; the subject is the kind's subject for the name |
| Email.BuildJobInjective | src/modules/email/services/email.service.ts:25-59 | distinct send arguments give distinct jobs |
| Email.EmailService.SendRegistrationConfirmation | src/modules/email/services/email.service.ts:25-35 | appends exactly one confirmation job for the arguments |
| Email.EmailService.SendEventReminder | src/modules/email/services/email.service.ts:37-47 | appends exactly one reminder job for the arguments |
| Email.EmailService.SendRegistrationCancellation | src/modules/email/services/email.service.ts:49-59 | appends exactly one cancellation job for the arguments |
| Registrations.CheckCreate | src/modules/registrations/services/registration.service.ts:29-66 | in order: a missing event gives NotFound, a missing attendee NotFound, an existing pair BadRequest, a loaded count at or above the maximum BadRequest; success is exactly the conjunction of the four |
| Registrations.CapacityNotice | src/modules/registrations/services/registration.service.ts:153-158 | at most one notice, sent exactly when the spots left by the loaded list are at most 2, carrying those spots; it fires whenever the shared capacity warning would, and also for a full event |
| Registrations.CreateAddsExactlyOne | src/modules/registrations/services/registration.service.ts:68-75 | the insert adds one to its own event's count and nothing to any other event's |
| Registrations.CreatePreservesConsistency | src/modules/registrations/services/registration.service.ts:29-75 | a successful create keeps every integrity rule, including the per-event capacity and pair uniqueness |
| Registrations.CreateNoticeOverstatesByOne | src/modules/registrations/services/registration.service.ts:153-158 | the capacity notice uses the list loaded before the insert: it is sent exactly when at most one spot is left and reports one more spot than are left |
| Registrations.RemoveTakesExactlyOne | src/modules/registrations/services/registration.service.ts:132 | deleting a stored registration takes one from its own event's count and nothing from any other event's |
| Registrations.ReferencesResolve | src/modules/registrations/services/registration.service.ts:122-125 | in a consistent store, a registration's event and attendee exist |
| Registrations.RemovePreservesConsistency | src/modules/registrations/services/registration.service.ts:119-132 | deleting a registration keeps every integrity rule |
| Registrations.RemoveBroadcastIsMaxPlusOne | src/modules/registrations/services/registration.service.ts:138-140 | with the event's registrations not loaded, the broadcast is maximum + 1, which exceeds the spots actually left by the remaining count + 1 |
| Registrations.RemovalRemainingSpots | src/modules/registrations/services/registration.service.ts:138-140 | with the relation not loaded, maximum + 1; with a loaded list, one more than the available spots for that list |
| Registrations.RegistrationService.Create | src/modules/registrations/services/registration.service.ts:29-91 | a failed check returns its error and changes nothing; success appends exactly one registration, enqueues one confirmation to the attendee, broadcasts the capacity notice and deletes no cache key; the store stays consistent |
| Registrations.RegistrationService.InsertCreated | src/modules/registrations/services/registration.service.ts:75-84 | appends the row, then the confirmation job, then the capacity notice |
| Registrations.RegistrationService.FindByEventId | src/modules/registrations/services/registration.service.ts:93-111 | exactly the event's registrations in storage order; NotFound exactly when there are none |
| Registrations.RegistrationService.GetRegistrationCount | src/modules/registrations/services/registration.service.ts:113-117 | the number of the event's registrations: zero exactly when none names the event, and within the event's maximum in a consistent store |
| Registrations.RegistrationService.Remove | src/modules/registrations/services/registration.service.ts:119-151 | an unknown id gives NotFound and changes nothing; otherwise exactly that registration is deleted, `registrations:<eventId>` and `events:<eventId>` are invalidated, the remaining spots are broadcast and one cancellation is enqueued; the store stays consistent |
| Registrations.RegistrationService.DeleteRemoved | src/modules/registrations/services/registration.service.ts:132-146 | deletes the row, both keys, then broadcasts and enqueues in that order |
| Registrations.RegistrationService.CheckAndNotifyCapacity | src/modules/registrations/services/registration.service.ts:153-159 | broadcasts one capacity update exactly when at most two spots remain by the loaded list |
| Events.FindConflict | src/modules/events/services/event.service.ts:35-43 | the row found lies in the date range at the queried location and is not the excluded event; none is found exactly when no row qualifies |
| Events.CheckCreate | src/modules/events/services/event.service.ts:35-47 | rejected with BadRequest exactly when an event at a matching location has its date in [date - 1h, date + 1h] |
| Events.CreateAdmitsNoOverlap | src/modules/events/services/event.service.ts:35-47 | after a successful check, no event at the location overlaps the new one |
| Events.CreateRejectsAdjacentEvent | src/modules/events/services/event.service.ts:37-40 | an event exactly one hour away is rejected, though it does not overlap |
| Events.Merge | src/modules/events/services/event.service.ts:164-167 | every supplied field overrides the stored one; every other field, the id and `createdAt` are kept |
| Events.MergeIdempotent | src/modules/events/services/event.service.ts:164-167 | applying an update twice is applying it once; an empty update changes nothing |
| Events.UpdateWindow | src/modules/events/services/event.service.ts:141-144 | with a non-zero supplied date both bounds are that date; otherwise the bounds are the stored date plus and minus 1h |
| Events.UpdateWithDateChecksOneInstant | src/modules/events/services/event.service.ts:141-144 | with a supplied date, another event at the same location starting 1 ms later overlaps the update but does not block it |
| Events.UpdateWithDateConflictsOnlyAtInstant | src/modules/events/services/event.service.ts:137-152 | for every store and every update with a non-zero date, the conflict error arises exactly when another event at the queried location starts at exactly that date |
| Events.CheckUpdate | src/modules/events/services/event.service.ts:132-162 | in order: NotFound for an unknown id; BadRequest when another event conflicts in the window at the queried location (checked only when a date or a non-empty location is supplied); BadRequest when a truthy new maximum is below the count; otherwise the merged event |
| Events.CheckRemove | src/modules/events/services/event.service.ts:183-194 | success exactly when the event exists and no registration names it; otherwise NotFound or BadRequest |
| Events.AbsentEventHasNoRegistrations | src/modules/events/services/event.service.ts:186-194 | in a consistent store an absent event has no registrations, so the existence check comes first |
| Events.FirstAtLocation | src/modules/events/services/event.service.ts:211-216 | the row found is at the location and is not the excluded event; none exactly when no such row exists |
| Events.CheckOverlappingSeesFirstOnly | src/modules/events/services/event.service.ts:210-223 | with an excluded id, an overlapping event behind a non-overlapping first one at the same location is not seen |
| Events.CreatePreservesConsistency | src/modules/events/services/event.service.ts:49-50 | inserting a validated new event under a fresh id keeps every integrity rule |
| Events.UpdatePreservesConsistency | src/modules/events/services/event.service.ts:154-167 | saving a validated, checked update keeps every integrity rule, in particular count <= maximum |
| Events.ReplacePreservesConsistency | src/modules/events/services/event.service.ts:164-167 | replacing an event by one with the same id whose maximum still holds its registrations keeps every rule |
| Events.RemovePreservesConsistency | src/modules/events/services/event.service.ts:188-196 | deleting an event no registration names keeps every integrity rule |
| Events.InvalidatedKeys | src/modules/events/services/event.service.ts:225-230 | `events:all` always, `events:<id>` when a non-empty id is given, and nothing else |
| Events.UpdateInvalidatesLikeInvalidateCache | src/modules/events/services/event.service.ts:170-171 | the keys `update` and `remove` delete are the keys `invalidateCache` deletes; the two differ unless the id is `all` |
| Events.EventService.Create | src/modules/events/services/event.service.ts:31-60 | on a conflict, BadRequest and nothing changes; otherwise one new event is appended and broadcast, and no cache key is touched |
| Events.EventService.FindOne | src/modules/events/services/event.service.ts:92-110 | the stored event with the id exactly when one exists, else NotFound with the source's message |
| Events.EventService.Update | src/modules/events/services/event.service.ts:132-181 | on a failed check, its error and no change; otherwise the merged event replaces the stored one, `events:<id>` and `events:all` are invalidated and `eventUpdated` is broadcast |
| Events.EventService.SaveUpdated | src/modules/events/services/event.service.ts:164-174 | replaces the row, deletes both keys, then broadcasts |
| Events.EventService.Remove | src/modules/events/services/event.service.ts:183-208 | on a failed check, its error and no change; otherwise only that event is deleted, both keys are invalidated and `eventDeleted` is broadcast; the store stays consistent |
| Events.EventService.DeleteRemoved | src/modules/events/services/event.service.ts:196-203 | deletes the row, both keys, then broadcasts |
| Events.EventService.CheckOverlapping | src/modules/events/services/event.service.ts:210-223 | false when no other event is at the location; otherwise the overlap test against the first such event; true only if some event at the location overlaps |
| Events.EventService.InvalidateCache | src/modules/events/services/event.service.ts:225-230 | deletes exactly the invalidated keys and keeps every other entry |
| Attendees.CheckCreate | src/modules/attendees/services/attendee.service.ts:24-37 | an invalid email gives BadRequest before the lookup; a taken email gives BadRequest; success exactly when the email is valid and unused |
| Attendees.CheckRemove | src/modules/attendees/services/attendee.service.ts:142-154 | success exactly when the attendee exists and no registration names it; otherwise NotFound or BadRequest |
| Attendees.LoadedRegistrations | src/modules/attendees/services/attendee.service.ts:74-77 | the attendee's registrations in order, each with its stored event |
| Attendees.Lookup | src/modules/attendees/services/attendee.service.ts:66-87 | a hit answers the cached value; a miss answers NotFound exactly for an unknown id, otherwise the attendee's own id with its registration count |
| Attendees.CacheHitIgnoresStore | src/modules/attendees/services/attendee.service.ts:66-72 | on a hit the answer is the cached value, whatever the store holds |
| Attendees.MissReportsRegistrations | src/modules/attendees/services/attendee.service.ts:74-86 | on a miss for a known attendee the answer carries its id, name, email and registration count, and in order the event of each registration |
| Attendees.MissThenHit | src/modules/attendees/services/attendee.service.ts:83-86 | what a miss stores is what the next lookup answers, even after the store changes |
| Attendees.CreatePreservesConsistency | src/modules/attendees/services/attendee.service.ts:31-40 | inserting an attendee with a checked email and a fresh id keeps every integrity rule, including email uniqueness |
| Attendees.RemovePreservesConsistency | src/modules/attendees/services/attendee.service.ts:152-156 | deleting an attendee no registration names keeps every integrity rule |
| Attendees.RemovedAttendeeNotFound | src/modules/attendees/services/attendee.service.ts:142-159 | after a successful remove, a lookup of the same id answers NotFound: the key remove deletes is the key findOne reads |
| Attendees.AttendeeService.Create | src/modules/attendees/services/attendee.service.ts:24-43 | a failed check returns its error and changes nothing; success appends one attendee and returns it without registration data; the cache is untouched and the store stays consistent |
| Attendees.AttendeeService.FindOne | src/modules/attendees/services/attendee.service.ts:66-87 | answers the cache-aside lookup; a miss that finds the attendee stores the answer under `attendees:<id>`; otherwise the cache is unchanged; on success the cache holds the answer |
| Attendees.AttendeeService.Remove | src/modules/attendees/services/attendee.service.ts:142-159 | a failed check returns its error and changes nothing; otherwise only that attendee is deleted and `attendees:<id>` and `attendees:all` are invalidated |
| Attendees.AttendeeService.DeleteRemoved | src/modules/attendees/services/attendee.service.ts:156-158 | deletes the row and then both keys |
| Schedulers.ConfiguredReminderHours | src/config/configuration.ts:29 | an unset, unparsable or zero setting gives 24 hours; any other value is kept; never 0 |
| Schedulers.DueEvents | src/modules/schedulers/event-reminder.scheduler.ts:20-29 | exactly the stored events with now <= date <= now + hours, both ends inclusive |
| Schedulers.RemindersFor | src/modules/schedulers/event-reminder.scheduler.ts:32-38 | one reminder per registration of the event, the k-th for the k-th registration |
| Schedulers.Reminders | src/modules/schedulers/event-reminder.scheduler.ts:31-39 | every job of a run is an event reminder (its soundness, completeness and count are the lemmas below) |
| Schedulers.RemindersSound | src/modules/schedulers/event-reminder.scheduler.ts:31-39 | every reminder is for a registration of a selected event, to its attendee's email, with the event's name and date |
| Schedulers.RemindersComplete | src/modules/schedulers/event-reminder.scheduler.ts:31-39 | every registration of a selected event gets its reminder |
| Schedulers.ReminderCount | src/modules/schedulers/event-reminder.scheduler.ts:31-39 | with distinct event ids, there are exactly as many reminders as registrations of the selected events |
| Schedulers.RunRemindsExactlyTheDue | src/modules/schedulers/event-reminder.scheduler.ts:18-39 | one run reminds every registration of every event in the window, nothing else, and one reminder per such registration |
| Schedulers.EventReminderScheduler.constructor | src/modules/schedulers/event-reminder.scheduler.ts:20 | the reminder horizon is the configured number of hours, 24 when unset or zero |
| Schedulers.EventReminderScheduler.SendEventReminders | src/modules/schedulers/event-reminder.scheduler.ts:19-40 | appends exactly the reminders of the due events: event by event in storage order, each event's registrations in order; nothing else changes |
| Schedulers.EventReminderScheduler.SendForEvent | src/modules/schedulers/event-reminder.scheduler.ts:32-38 | the inner loop appends one reminder per registration, in order |

## Left out

- HTTP and dependency-injection wiring is not modelled: controllers, modules, `main.ts`, health checks, filters and interceptors. The validation pipe is kept only as the `ValidCreateDto` and `ValidUpdateDto` predicates (`maxAttendees >= 1`).
- The SQL and query-builder finders are not modelled: `EventService.findAll`, `findEventWithMostRegistrations`, `AttendeeService.findAll`, and the finders of attendees with several registrations. Their meaning lives in the database engine. `cleanup.task.ts` is not modelled either.
- Transports are not modelled: the email processor, SMTP, HTML templates, socket.io rooms and connected clients. Broadcasts and jobs are appended records. Notification timestamps are dropped.
- The cache has no time-to-live, and `reset` is not modelled. The cache holds attendee responses only, because those are the only values the core stores in it. Its other keys are only ever deleted.
- Email dates are kept as the integer time. `toLocaleDateString` is locale formatting, not modelled.
- `setHours` works in local time; the model adds whole hours of milliseconds, so daylight-saving shifts are not modelled.
- Every operation runs alone, with no concurrency. The race between the capacity check and the insert is not modelled.
- Row ids and creation times come from the database and the clock. They are parameters here, with a precondition that the id is unused.
- Rows are kept in storage order. An unordered `findOne` or `find` is modelled as returning rows in that order, and the first match where there are several.
- A `where` criterion whose value is `undefined` or `null` is taken to be dropped by the ORM. So `create` with no location matches events at any location. Likewise `update` of an event stored without a location, with no location in the body, queries with a `null` location and matches events at any location.
- Events.EventService.CheckOverlapping: without `excludeEventId`, `Not(undefined)` is assumed to exclude nothing. The ORM may instead render it as a comparison with NULL that matches no row, and then the method would always answer false. Nothing in the core calls this method.
- The update spread is modelled over the fields of the request body. A field present with the value `undefined` is treated as absent.
- Events.Merge: a field sent as JSON `null` is treated as absent, so the stored value is kept. The validation pipe admits `null` for every optional field. In the source, a `null` description or location clears the column. A `null` name, date or maxAttendees makes the save fail on a NOT NULL column, after the capacity check has been skipped for a falsy maximum.
- Events.EventService.Update: inherits the `null` reading of `Events.Merge`. It therefore succeeds and keeps the stored value where the source clears a nullable column or fails with a database error.
- Registrations.RegistrationService.Create: returns the saved row. The source's saved entity also carries the `event` and `attendee` objects passed to `create`; those are not part of the result.
- PaginationUtil.GetPaginationParams: query values are taken to be integers. With a fractional page the source computes a fractional skip, and a NaN value falls back to the default as 0 does; neither is modelled.
- `attendee.service.ts:20-21` puts a repository decorator on the cache parameter. The model takes `cacheService` to be the cache.
- The relations `EventService.findOne` loads are not part of the returned event; it returns the row.
- Events.EventService.Update: the event it saves, returns and broadcasts is the merged row. In the source it also carries the `registrations` relation that `findOne` loaded.
- Ids are taken to be well-formed UUIDs. Every id column is a PostgreSQL `uuid`, and no route validates the id. A malformed id therefore makes the query fail in the database, and the client gets a server error. The model instead answers NotFound from the `findOne`, `update` and `remove` of the event, attendee and registration services and from `findByEventId`, and a count of 0 from `getRegistrationCount`.
- Registrations.RegistrationService.FindByEventId: the `attendee` and `event` relations it loads are not part of the result; it returns the registration rows.
- The scheduler reads `reminder.beforeEventHours` on every run. The model reads it once, at construction, because the configuration does not change while the service runs.
- The scheduler calls `new Date()` twice a few instants apart. Both are taken as the single parameter `now`.
- Registrations.RegistrationService.Create: requires the store consistent and preserves it. The source makes no such promise; it relies on the foreign keys and checks.
- Events.EventService.Create: keeps the store consistent only for a body the validation pipe accepts (`maxAttendees >= 1`). The method itself would store a non-positive maximum.
- Events.EventService.Update: keeps the store consistent only for a body the validation pipe accepts. A `maxAttendees` of 0 skips the capacity check, being falsy, and would be saved.
- Attendees.Lookup: the registrations and their events are loaded for a consistent store only. The source fails on a registration whose event is missing.
