/** Creating, reading, updating and deleting events (event.service.ts). The
    checks `create` and `update` make are functions of the tables; the
    service applies them, writes the event table, invalidates the `events:`
    cache keys and broadcasts on the gateway, in the order the source does. */
module Events {
  import opened Common
  import opened Seqs
  import opened Store
  import opened DateUtil
  import opened Cache
  import opened Gateway

  /** The body of a create request (event.dto.ts). */
  datatype CreateEventDto = CreateEventDto(
    name: string,
    description: Option<string>,
    date: Time,
    location: Option<string>,
    maxAttendees: int)

  /** The body of an update request (update-event.dto.ts): every field may
      be absent. */
  datatype UpdateEventDto = UpdateEventDto(
    name: Option<string>,
    description: Option<string>,
    date: Option<Time>,
    location: Option<string>,
    maxAttendees: Option<int>)

  /** What the validation pipe lets through: `@Min(1)` on `maxAttendees`. */
  predicate ValidCreateDto(dto: CreateEventDto) {
    dto.maxAttendees >= 1
  }

  predicate ValidUpdateDto(dto: UpdateEventDto) {
    dto.maxAttendees.None? || dto.maxAttendees.value >= 1
  }

  const ConflictMessage: string := "An event already exists at this time and location"
  const CapacityMessage: string := "Cannot reduce max attendees below current registration count"
  const RegistrationsExistMessage: string := "Cannot delete event with existing registrations"

  function NotFoundMessage(id: Id): string {
    "Event with ID " + id + " not found"
  }

  /** A `where` on `location`: an absent criterion is dropped, a present one
      matches only rows holding that same location. */
  predicate LocationMatches(criterion: Option<string>, location: Option<string>) {
    criterion.None? || location == criterion
  }

  /** The rows the overlap query selects: date in `Between(lo, hi)`, which
      is inclusive at both ends, a matching location, and an id other than
      `exclude` when there is one. */
  predicate IsConflict(e: Event, lo: Time, hi: Time, location: Option<string>, exclude: Option<Id>) {
    && lo <= e.date <= hi
    && LocationMatches(location, e.location)
    && (exclude.None? || e.id != exclude.value)
  }

  /** The row the overlap query's `findOne` returns, if any. */
  function FindConflict(events: seq<Event>, lo: Time, hi: Time, location: Option<string>, exclude: Option<Id>): (r: Option<Event>)
    ensures r.Some? ==> r.value in events && IsConflict(r.value, lo, hi, location, exclude)
    ensures r.None? <==> forall e :: e in events ==> !IsConflict(e, lo, hi, location, exclude)
  {
    First(events, (e: Event) => IsConflict(e, lo, hi, location, exclude))
  }

  /** The event `create` stores for `dto` under the fresh id `id` at `now`. */
  function CreatedEvent(dto: CreateEventDto, id: Id, now: Time): Event {
    Event(id, dto.name, dto.description, dto.date, dto.location, dto.maxAttendees, now)
  }

  /** `create`'s one check: no event at the same location (any event, when
      no location is given) starts within one hour either side of the new
      date, both ends included. */
  function CheckCreate(events: seq<Event>, dto: CreateEventDto): (r: Result<()>)
    ensures r.Err? <==> exists e :: e in events && dto.date - MsPerHour <= e.date <= dto.date + MsPerHour
                                                 && LocationMatches(dto.location, e.location)
    ensures r.Err? ==> r.error == BadRequest(ConflictMessage)
  {
    var conflict := FindConflict(events, dto.date - MsPerHour, dto.date + MsPerHour, dto.location, None);
    if conflict.Some? then Err(BadRequest(ConflictMessage)) else Ok(())
  }

  /** The spread `{ ...event, ...dto }`: every field the request supplies
      replaces the stored one; the id and creation time are kept. */
  function Merge(e: Event, dto: UpdateEventDto): (r: Event)
    ensures r.id == e.id && r.createdAt == e.createdAt
    ensures r.name == (if dto.name.Some? then dto.name.value else e.name)
    ensures r.description == (if dto.description.Some? then dto.description else e.description)
    ensures r.date == (if dto.date.Some? then dto.date.value else e.date)
    ensures r.location == (if dto.location.Some? then dto.location else e.location)
    ensures r.maxAttendees == (if dto.maxAttendees.Some? then dto.maxAttendees.value else e.maxAttendees)
  {
    Event(
      e.id,
      if dto.name.Some? then dto.name.value else e.name,
      if dto.description.Some? then dto.description else e.description,
      if dto.date.Some? then dto.date.value else e.date,
      if dto.location.Some? then dto.location else e.location,
      if dto.maxAttendees.Some? then dto.maxAttendees.value else e.maxAttendees,
      e.createdAt)
  }

  /** Applying the same update twice is applying it once; an empty update
      changes nothing. */
  lemma MergeIdempotent(e: Event, dto: UpdateEventDto)
    ensures Merge(Merge(e, dto), dto) == Merge(e, dto)
    ensures Merge(e, UpdateEventDto(None, None, None, None, None)) == e
  {
  }

  /** `update` runs the overlap query only when a date or a non-empty
      location is supplied. */
  predicate UpdateChecksOverlap(dto: UpdateEventDto) {
    dto.date.Some? || Truthy(dto.location)
  }

  /** The bounds `update` queries: `dto.date || stored - 1h` and
      `dto.date || stored + 1h`. A supplied non-zero date is both bounds. */
  function UpdateWindow(stored: Time, date: Option<Time>): (w: (Time, Time))
    ensures date.Some? && date.value != 0 ==> w == (date.value, date.value)
    ensures date.None? || date.value == 0 ==> w == (stored - MsPerHour, stored + MsPerHour)
  {
    if date.Some? && date.value != 0 then (date.value, date.value)
    else (stored - MsPerHour, stored + MsPerHour)
  }

  /** The location `update` queries: `dto.location || event.location`. */
  function UpdateLocation(stored: Option<string>, location: Option<string>): Option<string> {
    if Truthy(location) then location else stored
  }

  /** `update` rejects a truthy `maxAttendees` below the current count. */
  predicate UpdateChecksCapacity(dto: UpdateEventDto) {
    dto.maxAttendees.Some? && dto.maxAttendees.value != 0
  }

  /** The checks `update` makes, in order: the event exists, no other event
      conflicts in the window and at the location it queries, and a new
      maximum is not below the event's registration count. On success it
      gives the merged event that is saved. */
  function CheckUpdate(t: Tables, id: Id, dto: UpdateEventDto): (r: Result<Event>)
    ensures FindEvent(t.events, id).None? ==> r == Err(NotFound(NotFoundMessage(id)))
    ensures FindEvent(t.events, id).Some? ==>
      var event := FindEvent(t.events, id).value;
      var w := UpdateWindow(event.date, dto.date);
      var conflict := UpdateChecksOverlap(dto) &&
        exists e :: e in t.events && IsConflict(e, w.0, w.1, UpdateLocation(event.location, dto.location), Some(id));
      var tooSmall := UpdateChecksCapacity(dto) && dto.maxAttendees.value < |RegistrationsOf(t.registrations, id)|;
      && (conflict ==> r == Err(BadRequest(ConflictMessage)))
      && (!conflict && tooSmall ==> r == Err(BadRequest(CapacityMessage)))
      && (!conflict && !tooSmall ==> r == Ok(Merge(event, dto)))
  {
    var found := FindEvent(t.events, id);
    if found.None? then Err(NotFound(NotFoundMessage(id)))
    else
      var event := found.value;
      var w := UpdateWindow(event.date, dto.date);
      if UpdateChecksOverlap(dto) && FindConflict(t.events, w.0, w.1, UpdateLocation(event.location, dto.location), Some(id)).Some? then
        Err(BadRequest(ConflictMessage))
      else if UpdateChecksCapacity(dto) && dto.maxAttendees.value < |RegistrationsOf(t.registrations, id)| then
        Err(BadRequest(CapacityMessage))
      else Ok(Merge(event, dto))
  }

  /** The checks `remove` makes: the event exists and no registration
      references it. */
  function CheckRemove(t: Tables, id: Id): (r: Result<Event>)
    ensures r.Ok? <==> FindEvent(t.events, id).Some? && forall x :: x in t.registrations ==> x.eventId != id
    ensures FindEvent(t.events, id).None? ==> r == Err(NotFound(NotFoundMessage(id)))
    ensures FindEvent(t.events, id).Some? && r.Err? ==> r == Err(BadRequest(RegistrationsExistMessage))
    ensures r.Ok? ==> r.value in t.events && r.value.id == id
  {
    var found := FindEvent(t.events, id);
    if found.None? then Err(NotFound(NotFoundMessage(id)))
    else
      var count := |RegistrationsOf(t.registrations, id)|;
      if count > 0 then
        assert RegistrationsOf(t.registrations, id)[0] in RegistrationsOf(t.registrations, id);
        Err(BadRequest(RegistrationsExistMessage))
      else Ok(found.value)
  }

  /** The first event `checkOverlapping` looks at: the first one at
      `location` whose id is not `exclude`. */
  function FirstAtLocation(events: seq<Event>, location: string, exclude: Option<Id>): (r: Option<Event>)
    ensures r.Some? ==> r.value in events && r.value.location == Some(location)
                        && (exclude.None? || r.value.id != exclude.value)
    ensures r.None? <==> forall e :: e in events ==> e.location != Some(location) || (exclude.Some? && e.id == exclude.value)
  {
    First(events, (e: Event) => e.location == Some(location) && (exclude.None? || e.id != exclude.value))
  }

  // ---------------------------------------------------------------------
  // What the checks guarantee.

  /** Every event that overlaps the new one by `isOverlapping` lies in the
      window `create` queries, so a create that passes its check never
      admits an overlapping event at a matching location. */
  lemma CreateAdmitsNoOverlap(events: seq<Event>, dto: CreateEventDto, e: Event)
    requires CheckCreate(events, dto).Ok?
    requires e in events && LocationMatches(dto.location, e.location)
    ensures !IsOverlapping(dto.date, e.date, DefaultDurationHours)
  {
    OverlapIffClose(dto.date, e.date, DefaultDurationHours);
  }

  /** The window is wider than the overlap test: an event starting exactly
      one hour before or after, which does not overlap, is still rejected. */
  lemma CreateRejectsAdjacentEvent(events: seq<Event>, dto: CreateEventDto, e: Event)
    requires e in events && LocationMatches(dto.location, e.location)
    requires e.date == dto.date + MsPerHour || e.date == dto.date - MsPerHour
    ensures !IsOverlapping(dto.date, e.date, DefaultDurationHours)
    ensures CheckCreate(events, dto) == Err(BadRequest(ConflictMessage))
  {
    OverlapIffClose(dto.date, e.date, DefaultDurationHours);
  }

  /** With a supplied non-zero date, `update` rejects only an event starting
      at exactly that instant: an event at the same location starting one
      millisecond later overlaps and is admitted. */
  lemma UpdateWithDateChecksOneInstant()
    ensures var stored := Event("a", "A", None, 0, Some("hall"), 10, 0);
      var other := Event("b", "B", None, 2 * MsPerHour + 1, Some("hall"), 10, 0);
      var t := Tables([stored, other], [], []);
      var dto := UpdateEventDto(None, None, Some(2 * MsPerHour), None, None);
      && IsOverlapping(2 * MsPerHour, other.date, DefaultDurationHours)
      && CheckUpdate(t, "a", dto) == Ok(Merge(stored, dto))
  {
    var stored := Event("a", "A", None, 0, Some("hall"), 10, 0);
    var other := Event("b", "B", None, 2 * MsPerHour + 1, Some("hall"), 10, 0);
    var t := Tables([stored, other], [], []);
    assert FindEvent(t.events, "a") == Some(stored) by {
      assert t.events[0] == stored;
    }
    assert !IsConflict(other, 2 * MsPerHour, 2 * MsPerHour, Some("hall"), Some("a"));
    assert !IsConflict(stored, 2 * MsPerHour, 2 * MsPerHour, Some("hall"), Some("a"));
    assert forall e :: e in t.events ==> e == stored || e == other;
    assert RegistrationsOf(t.registrations, "a") == [];
  }

  /** With a supplied non-zero date, `update` conflicts only with another
      event at the queried location starting at exactly that instant. */
  lemma UpdateWithDateConflictsOnlyAtInstant(t: Tables, id: Id, dto: UpdateEventDto)
    requires FindEvent(t.events, id).Some?
    requires dto.date.Some? && dto.date.value != 0
    ensures CheckUpdate(t, id, dto) == Err(BadRequest(ConflictMessage)) <==>
      exists e :: e in t.events && e.id != id && e.date == dto.date.value
               && LocationMatches(UpdateLocation(FindEvent(t.events, id).value.location, dto.location), e.location)
  {
    assert |ConflictMessage| != |CapacityMessage|;
  }

  /** `checkOverlapping` looks only at the first event at the location: it
      answers false although a later event there overlaps. */
  lemma CheckOverlappingSeesFirstOnly()
    ensures var first := Event("a", "A", None, 0, Some("hall"), 10, 0);
      var later := Event("b", "B", None, 5 * MsPerHour, Some("hall"), 10, 0);
      var events := [first, later];
      && FirstAtLocation(events, "hall", Some("x")) == Some(first)
      && !IsOverlapping(5 * MsPerHour, first.date, DefaultDurationHours)
      && IsOverlapping(5 * MsPerHour, later.date, DefaultDurationHours)
  {
    var first := Event("a", "A", None, 0, Some("hall"), 10, 0);
    var later := Event("b", "B", None, 5 * MsPerHour, Some("hall"), 10, 0);
    assert [first, later][0] == first;
  }

  /** In a consistent store an event that does not exist has no
      registrations, so `remove` reports NotFound before counting. */
  lemma AbsentEventHasNoRegistrations(t: Tables, id: Id)
    requires Consistent(t)
    requires FindEvent(t.events, id).None?
    ensures RegistrationsOf(t.registrations, id) == []
  {
    FilterKeepsNone(t.registrations, ForEvent(id));
  }

  /** A successful `create` with a validated body and a fresh id keeps every
      integrity rule of the store. */
  lemma CreatePreservesConsistency(t: Tables, dto: CreateEventDto, id: Id, now: Time)
    requires Consistent(t)
    requires ValidCreateDto(dto)
    requires FindEvent(t.events, id).None?
    ensures Consistent(t.(events := t.events + [CreatedEvent(dto, id, now)]))
  {
    var e := CreatedEvent(dto, id, now);
    var t' := t.(events := t.events + [e]);
    DistinctSnoc(t.events, EventIdOf, e);
    AbsentEventHasNoRegistrations(t, id);
    forall r | r in t'.registrations
      ensures FindEvent(t'.events, r.eventId).Some?
    {
      assert FindEvent(t.events, r.eventId).value in t'.events;
    }
  }

  /** A successful `update` with a validated body keeps every integrity
      rule: ids and references are unchanged, and a new maximum is at least
      the event's registration count. */
  lemma UpdatePreservesConsistency(t: Tables, id: Id, dto: UpdateEventDto)
    requires Consistent(t)
    requires ValidUpdateDto(dto)
    requires CheckUpdate(t, id, dto).Ok?
    ensures Consistent(t.(events := Replace(t.events, EventIdOf, CheckUpdate(t, id, dto).value)))
  {
    var updated := CheckUpdate(t, id, dto).value;
    ReplacePreservesConsistency(t, updated);
  }

  /** Replacing a stored event by one with the same id that still holds its
      registrations keeps every integrity rule. */
  lemma ReplacePreservesConsistency(t: Tables, updated: Event)
    requires Consistent(t)
    requires FindEvent(t.events, updated.id).Some?
    requires |RegistrationsOf(t.registrations, updated.id)| <= updated.maxAttendees
    ensures Consistent(t.(events := Replace(t.events, EventIdOf, updated)))
  {
    var events' := Replace(t.events, EventIdOf, updated);
    DistinctReplace(t.events, EventIdOf, updated);
    forall r | r in t.registrations
      ensures FindEvent(events', r.eventId).Some?
    {
      ReplaceKeepsKeys(t.events, EventIdOf, updated, r.eventId);
    }
    forall e | e in events'
      ensures |RegistrationsOf(t.registrations, e.id)| <= e.maxAttendees
    {
      var i :| 0 <= i < |events'| && events'[i] == e;
      if t.events[i].id != updated.id {
        assert e == t.events[i];
      }
    }
  }

  /** Deleting an event no registration references keeps every integrity
      rule of the store. */
  lemma RemovePreservesConsistency(t: Tables, id: Id)
    requires Consistent(t)
    requires CheckRemove(t, id).Ok?
    ensures Consistent(t.(events := Without(t.events, EventIdOf, id)))
  {
    var events' := Without(t.events, EventIdOf, id);
    DistinctWithout(t.events, EventIdOf, EventIdOf, id);
    forall r | r in t.registrations
      ensures FindEvent(events', r.eventId).Some?
    {
      assert FindEvent(t.events, r.eventId).value in events';
    }
  }

  /** The keys the private `invalidateCache` deletes: the event's own key
      when an id is given and not empty, and always the listing key. */
  function InvalidatedKeys(eventId: Option<Id>): (keys: set<string>)
    ensures AllEventsKey in keys
    ensures Truthy(eventId) ==> EventPrefix + eventId.value in keys
    ensures |keys| <= 2
    ensures forall k :: k in keys ==> k == AllEventsKey || (Truthy(eventId) && k == EventPrefix + eventId.value)
  {
    if Truthy(eventId) then {EventPrefix + eventId.value, AllEventsKey} else {AllEventsKey}
  }

  /** The keys `update` and `remove` delete for an event are the keys
      `invalidateCache` deletes for it, and they differ. */
  lemma UpdateInvalidatesLikeInvalidateCache(id: Id)
    requires id != ""
    ensures InvalidatedKeys(Some(id)) == {EventPrefix + id, AllEventsKey}
    ensures id != "all" ==> EventPrefix + id != AllEventsKey
  {
    if id != "all" {
      assert (EventPrefix + id)[|EventPrefix|..] == id;
      assert AllEventsKey[|EventPrefix|..] == "all";
    }
  }

  class EventService {
    const db: Database
    const cache: CacheService
    const gateway: EventGateway

    constructor (db: Database, cache: CacheService, gateway: EventGateway)
      ensures this.db == db && this.cache == cache && this.gateway == gateway
    {
      this.db := db;
      this.cache := cache;
      this.gateway := gateway;
    }

    /** `create`: on a conflict nothing changes; otherwise the new event is
        appended and broadcast as `newEvent`. No cache key is touched. */
    method Create(dto: CreateEventDto, newId: Id, now: Time) returns (r: Result<Event>)
      requires db.Valid()
      requires FindEvent(db.events, newId).None?
      modifies db, gateway
      ensures ValidCreateDto(dto) ==> db.Valid()
      ensures cache.entries == old(cache.entries)
      ensures CheckCreate(old(db.events), dto).Err? ==>
        && r == Err(BadRequest(ConflictMessage))
        && db.Snapshot() == old(db.Snapshot()) && gateway.sent == old(gateway.sent)
      ensures CheckCreate(old(db.events), dto).Ok? ==>
        && r == Ok(CreatedEvent(dto, newId, now))
        && db.events == old(db.events) + [r.value]
        && db.attendees == old(db.attendees) && db.registrations == old(db.registrations)
        && gateway.sent == old(gateway.sent) + [NewEvent(r.value)]
    {
      var overlapping := FindConflict(db.events, dto.date - MsPerHour, dto.date + MsPerHour, dto.location, None);
      if overlapping.Some? {
        return Err(BadRequest(ConflictMessage));
      }
      var event := CreatedEvent(dto, newId, now);
      if ValidCreateDto(dto) {
        CreatePreservesConsistency(db.Snapshot(), dto, newId, now);
      }
      db.InsertEvent(event);
      gateway.NotifyNewEventCreated(event);
      r := Ok(event);
    }

    /** `findOne`: the event with this id, or NotFound. */
    method FindOne(id: Id) returns (r: Result<Event>)
      ensures r.Ok? <==> exists e :: e in db.events && e.id == id
      ensures r.Ok? ==> r.value in db.events && r.value.id == id
      ensures r.Ok? ==> FindEvent(db.events, id) == Some(r.value)
      ensures r.Err? ==> r.error == NotFound(NotFoundMessage(id))
    {
      var event := FindEvent(db.events, id);
      if event.None? {
        return Err(NotFound(NotFoundMessage(id)));
      }
      r := Ok(event.value);
    }

    /** `update`: on a failed check nothing changes; otherwise the merged
        event replaces the stored one, `events:<id>` and `events:all` are
        invalidated and the merged event is broadcast as `eventUpdated`. */
    method Update(id: Id, dto: UpdateEventDto) returns (r: Result<Event>)
      requires db.Valid()
      modifies db, cache, gateway
      ensures ValidUpdateDto(dto) ==> db.Valid()
      ensures var c := CheckUpdate(old(db.Snapshot()), id, dto);
        c.Err? ==>
          && r == c
          && db.Snapshot() == old(db.Snapshot())
          && cache.entries == old(cache.entries) && gateway.sent == old(gateway.sent)
      ensures var c := CheckUpdate(old(db.Snapshot()), id, dto);
        c.Ok? ==>
          && r == c
          && db.events == Replace(old(db.events), EventIdOf, c.value)
          && db.attendees == old(db.attendees) && db.registrations == old(db.registrations)
          && cache.entries == old(cache.entries) - {EventPrefix + id} - {AllEventsKey}
          && gateway.sent == old(gateway.sent) + [EventUpdated(c.value)]
    {
      var found := FindOne(id);
      if found.Err? {
        return Err(found.error);
      }
      var event := found.value;
      if UpdateChecksOverlap(dto) {
        var w := UpdateWindow(event.date, dto.date);
        var overlapping := FindConflict(db.events, w.0, w.1, UpdateLocation(event.location, dto.location), Some(id));
        if overlapping.Some? {
          return Err(BadRequest(ConflictMessage));
        }
      }
      if UpdateChecksCapacity(dto) {
        var currentRegistrations := |RegistrationsOf(db.registrations, id)|;
        if dto.maxAttendees.value < currentRegistrations {
          return Err(BadRequest(CapacityMessage));
        }
      }
      var updated := Merge(event, dto);
      if ValidUpdateDto(dto) {
        UpdatePreservesConsistency(db.Snapshot(), id, dto);
      }
      SaveUpdated(updated);
      r := Ok(updated);
    }

    /** The writes of a successful `update`: save the merged event,
        invalidate its key and the listing key, broadcast it. */
    method SaveUpdated(updated: Event)
      modifies db, cache, gateway
      ensures db.events == Replace(old(db.events), EventIdOf, updated)
      ensures db.attendees == old(db.attendees) && db.registrations == old(db.registrations)
      ensures cache.entries == old(cache.entries) - {EventPrefix + updated.id} - {AllEventsKey}
      ensures gateway.sent == old(gateway.sent) + [EventUpdated(updated)]
    {
      db.SaveEvent(updated);
      cache.Del(EventPrefix + updated.id);
      cache.Del(AllEventsKey);
      gateway.NotifyEventUpdated(updated);
    }

    /** `remove`: NotFound for an unknown id and BadRequest when a
        registration references the event, with nothing changed; otherwise
        the event is deleted, `events:<id>` and `events:all` are invalidated
        and its id is broadcast as `eventDeleted`. */
    method Remove(id: Id) returns (r: Result<()>)
      requires db.Valid()
      modifies db, cache, gateway
      ensures db.Valid()
      ensures CheckRemove(old(db.Snapshot()), id).Err? ==>
        && r == Err(CheckRemove(old(db.Snapshot()), id).error)
        && db.Snapshot() == old(db.Snapshot())
        && cache.entries == old(cache.entries) && gateway.sent == old(gateway.sent)
      ensures CheckRemove(old(db.Snapshot()), id).Ok? ==>
        && r == Ok(())
        && db.events == Without(old(db.events), EventIdOf, id)
        && db.attendees == old(db.attendees) && db.registrations == old(db.registrations)
        && cache.entries == old(cache.entries) - {EventPrefix + id} - {AllEventsKey}
        && gateway.sent == old(gateway.sent) + [EventDeleted(id)]
    {
      var found := FindOne(id);
      if found.Err? {
        return Err(found.error);
      }
      var hasRegistrations := |RegistrationsOf(db.registrations, id)|;
      if hasRegistrations > 0 {
        return Err(BadRequest(RegistrationsExistMessage));
      }
      RemovePreservesConsistency(db.Snapshot(), id);
      DeleteRemoved(found.value.id);
      r := Ok(());
    }

    /** The writes of a successful `remove`: delete the event, invalidate
        its key and the listing key, broadcast its id. */
    method DeleteRemoved(id: Id)
      modifies db, cache, gateway
      ensures db.events == Without(old(db.events), EventIdOf, id)
      ensures db.attendees == old(db.attendees) && db.registrations == old(db.registrations)
      ensures cache.entries == old(cache.entries) - {EventPrefix + id} - {AllEventsKey}
      ensures gateway.sent == old(gateway.sent) + [EventDeleted(id)]
    {
      db.DeleteEvent(id);
      cache.Del(EventPrefix + id);
      cache.Del(AllEventsKey);
      gateway.NotifyEventDeleted(id);
    }

    /** `checkOverlapping`: whether `date` overlaps the first event at
        `location` other than `excludeEventId`; false when there is none. */
    method CheckOverlapping(date: Time, location: string, excludeEventId: Option<Id>) returns (b: bool)
      ensures b ==> exists e :: e in db.events && e.location == Some(location)
                               && IsOverlapping(date, e.date, DefaultDurationHours)
      ensures FirstAtLocation(db.events, location, excludeEventId).None? ==> !b
      ensures FirstAtLocation(db.events, location, excludeEventId).Some? ==>
        (b <==> IsOverlapping(date, FirstAtLocation(db.events, location, excludeEventId).value.date, DefaultDurationHours))
    {
      var overlappingEvent := FirstAtLocation(db.events, location, excludeEventId);
      if overlappingEvent.Some? {
        return IsOverlapping(date, overlappingEvent.value.date, DefaultDurationHours);
      }
      return false;
    }

    /** `invalidateCache`: deletes the event's key when an id is given and
        not empty, then the listing key. */
    method InvalidateCache(eventId: Option<Id>)
      modifies cache
      ensures cache.entries == old(cache.entries) - InvalidatedKeys(eventId)
    {
      if Truthy(eventId) {
        cache.Del(EventPrefix + eventId.value);
      }
      cache.Del(AllEventsKey);
    }
  }
}
