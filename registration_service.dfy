/** Creating and cancelling registrations (registration.service.ts). The
    admission checks are a function of the tables; the service applies them,
    writes the registration table, and then appends to the email queue, the
    notification log and the cache as the source does, in the same order. */
module Registrations {
  import opened Common
  import opened Seqs
  import opened Store
  import opened RegistrationUtil
  import opened Cache
  import opened Gateway
  import opened Email

  /** The checks `create` makes, in order: the event exists, the attendee
      exists, the attendee is not yet registered for the event, and the
      registrations loaded with the event leave room for one more. On success
      it gives the event and the attendee it found. */
  function CheckCreate(t: Tables, eventId: Id, attendeeId: Id): (r: Result<(Event, Attendee)>)
    ensures r.Ok? <==>
      && FindEvent(t.events, eventId).Some?
      && FindAttendee(t.attendees, attendeeId).Some?
      && FindPair(t.registrations, eventId, attendeeId).None?
      && |RegistrationsOf(t.registrations, eventId)| < FindEvent(t.events, eventId).value.maxAttendees
    ensures r.Ok? ==> r.value.0 in t.events && r.value.0.id == eventId
    ensures r.Ok? ==> r.value.1 in t.attendees && r.value.1.id == attendeeId
    ensures FindEvent(t.events, eventId).None? ==> r == Err(NotFound("Event not found"))
    ensures FindEvent(t.events, eventId).Some? && FindAttendee(t.attendees, attendeeId).None? ==>
      r == Err(NotFound("Attendee not found"))
    ensures && FindEvent(t.events, eventId).Some?
            && FindAttendee(t.attendees, attendeeId).Some?
            && FindPair(t.registrations, eventId, attendeeId).Some?
            ==> r == Err(BadRequest("Attendee is already registered for this event"))
    ensures && r.Err?
            && FindEvent(t.events, eventId).Some?
            && FindAttendee(t.attendees, attendeeId).Some?
            && FindPair(t.registrations, eventId, attendeeId).None?
            ==> r == Err(BadRequest("Event has reached maximum capacity"))
  {
    var event := FindEvent(t.events, eventId);
    if event.None? then Err(NotFound("Event not found"))
    else
      var attendee := FindAttendee(t.attendees, attendeeId);
      if attendee.None? then Err(NotFound("Attendee not found"))
      else if FindPair(t.registrations, eventId, attendeeId).Some? then
        Err(BadRequest("Attendee is already registered for this event"))
      else if |RegistrationsOf(t.registrations, eventId)| >= event.value.maxAttendees then
        Err(BadRequest("Event has reached maximum capacity"))
      else Ok((event.value, attendee.value))
  }

  /** What `checkAndNotifyCapacity` broadcasts for `event` given the
      registration list loaded with it: the remaining spots, when at most two. */
  function CapacityNotice(event: Event, loaded: seq<Registration>): (notice: seq<Notification>)
    ensures |notice| <= 1
    ensures notice != [] <==> CalculateStats(|loaded|, event.maxAttendees).availableSpots <= CapacityWarning
    ensures notice != [] ==>
      notice[0] == CapacityUpdate(event.id, CalculateStats(|loaded|, event.maxAttendees).availableSpots)
    ensures ShouldSendCapacityWarning(CalculateStats(|loaded|, event.maxAttendees).availableSpots) ==> notice != []
    ensures CalculateStats(|loaded|, event.maxAttendees).isFullyBooked ==> notice != []
  {
    var remainingSpots := event.maxAttendees - |loaded|;
    if remainingSpots <= 2 then [CapacityUpdate(event.id, remainingSpots)] else []
  }

  /** The remaining spots `remove` broadcasts: the maximum, less the length of
      the event's loaded registration list (0 when the relation is absent),
      plus one. */
  function RemovalRemainingSpots(event: Event, loaded: Option<seq<Registration>>): (spots: int)
    ensures loaded.None? ==> spots == event.maxAttendees + 1
    ensures loaded.Some? ==> spots == CalculateStats(|loaded.value|, event.maxAttendees).availableSpots + 1
  {
    event.maxAttendees - (if loaded.Some? then |loaded.value| else 0) + 1
  }

  /** Appending one registration adds one to the count of its own event and
      changes no other event's count. */
  lemma CreateAddsExactlyOne(regs: seq<Registration>, reg: Registration, eventId: Id)
    ensures |RegistrationsOf(regs + [reg], eventId)| ==
            |RegistrationsOf(regs, eventId)| + (if reg.eventId == eventId then 1 else 0)
  {
    FilterSnoc(regs, reg, ForEvent(eventId));
  }

  /** A successful `create` keeps every integrity rule of the store: the new
      registration's id and (event, attendee) pair are new, both its
      references resolve, and its event had room for it. */
  lemma CreatePreservesConsistency(t: Tables, eventId: Id, attendeeId: Id, newId: Id, now: Time)
    requires Consistent(t)
    requires CheckCreate(t, eventId, attendeeId).Ok?
    requires FindRegistration(t.registrations, newId).None?
    ensures Consistent(t.(registrations := t.registrations + [Registration(newId, eventId, attendeeId, now)]))
  {
    var reg := Registration(newId, eventId, attendeeId, now);
    var t' := t.(registrations := t.registrations + [reg]);
    DistinctSnoc(t.registrations, RegistrationIdOf, reg);
    DistinctSnoc(t.registrations, PairOf, reg);
    var event := FindEvent(t.events, eventId).value;
    forall e | e in t'.events
      ensures |RegistrationsOf(t'.registrations, e.id)| <= e.maxAttendees
    {
      CreateAddsExactlyOne(t.registrations, reg, e.id);
      if e.id == eventId {
        DistinctUnique(t.events, EventIdOf, e, event);
      }
    }
  }

  /** The capacity broadcast after a successful `create` is computed from the
      list loaded before the insert: it is sent exactly when at most one spot
      is left after the insert, and it reports one spot more than are left,
      so it never reports 0, even for the registration that fills the event. */
  lemma CreateNoticeOverstatesByOne(t: Tables, eventId: Id, attendeeId: Id, newId: Id, now: Time)
    requires CheckCreate(t, eventId, attendeeId).Ok?
    ensures var event := CheckCreate(t, eventId, attendeeId).value.0;
      var after := t.registrations + [Registration(newId, eventId, attendeeId, now)];
      var left := CalculateStats(|RegistrationsOf(after, eventId)|, event.maxAttendees).availableSpots;
      var notice := CapacityNotice(event, RegistrationsOf(t.registrations, eventId));
      && (notice != [] <==> left <= 1)
      && (notice != [] ==> notice == [CapacityUpdate(eventId, left + 1)] && left + 1 >= 1)
  {
    CreateAddsExactlyOne(t.registrations, Registration(newId, eventId, attendeeId, now), eventId);
  }

  /** With distinct registration ids, deleting one registration takes exactly
      one from its event's count and changes no other event's count. */
  lemma RemoveTakesExactlyOne(regs: seq<Registration>, reg: Registration, eventId: Id)
    requires Distinct(regs, RegistrationIdOf)
    requires reg in regs
    ensures |RegistrationsOf(Without(regs, RegistrationIdOf, reg.id), eventId)| ==
            |RegistrationsOf(regs, eventId)| - (if reg.eventId == eventId then 1 else 0)
  {
    WithoutCount(regs, RegistrationIdOf, reg, ForEvent(eventId));
  }

  /** In a consistent store the event and the attendee of a registration exist. */
  lemma ReferencesResolve(t: Tables, reg: Registration)
    requires Consistent(t)
    requires reg in t.registrations
    ensures FindEvent(t.events, reg.eventId).Some? && FindAttendee(t.attendees, reg.attendeeId).Some?
  {
  }

  /** Deleting a registration keeps every integrity rule of the store. */
  lemma RemovePreservesConsistency(t: Tables, reg: Registration)
    requires Consistent(t)
    requires reg in t.registrations
    ensures Consistent(t.(registrations := Without(t.registrations, RegistrationIdOf, reg.id)))
  {
    var left := Without(t.registrations, RegistrationIdOf, reg.id);
    DistinctWithout(t.registrations, RegistrationIdOf, RegistrationIdOf, reg.id);
    DistinctWithout(t.registrations, PairOf, RegistrationIdOf, reg.id);
    forall e | e in t.events
      ensures |RegistrationsOf(left, e.id)| <= e.maxAttendees
    {
      RemoveTakesExactlyOne(t.registrations, reg, e.id);
    }
  }

  /** `remove` loads the registration's event without its registrations, so
      it always broadcasts `maxAttendees + 1`. Computed from the loaded list,
      the same formula would give exactly the spots left after the removal;
      as written, it overstates them by one more than the registrations left. */
  lemma RemoveBroadcastIsMaxPlusOne(t: Tables, reg: Registration)
    requires Consistent(t)
    requires reg in t.registrations
    ensures var event := FindEvent(t.events, reg.eventId).value;
      var count := |RegistrationsOf(Without(t.registrations, RegistrationIdOf, reg.id), event.id)|;
      var left := CalculateStats(count, event.maxAttendees).availableSpots;
      && RemovalRemainingSpots(event, None) == event.maxAttendees + 1
      && RemovalRemainingSpots(event, Some(RegistrationsOf(t.registrations, event.id))) == left
      && RemovalRemainingSpots(event, None) == left + count + 1
  {
    RemoveTakesExactlyOne(t.registrations, reg, reg.eventId);
  }

  class RegistrationService {
    const db: Database
    const cache: CacheService
    const gateway: EventGateway
    const email: EmailService

    constructor (db: Database, cache: CacheService, gateway: EventGateway, email: EmailService)
      ensures this.db == db && this.cache == cache && this.gateway == gateway && this.email == email
    {
      this.db := db;
      this.cache := cache;
      this.gateway := gateway;
      this.email := email;
    }

    /** `create`: on a failed check nothing changes; otherwise one registration
        is appended, one confirmation job is enqueued and the capacity notice
        computed before the insert is broadcast. No cache key is touched. */
    method Create(eventId: Id, attendeeId: Id, newId: Id, now: Time) returns (r: Result<Registration>)
      requires db.Valid()
      requires FindRegistration(db.registrations, newId).None?
      modifies db, gateway, email
      ensures db.Valid()
      ensures var c := CheckCreate(old(db.Snapshot()), eventId, attendeeId);
        c.Err? ==>
          && r == Err(c.error)
          && db.Snapshot() == old(db.Snapshot())
          && gateway.sent == old(gateway.sent) && email.queue == old(email.queue)
      ensures var c := CheckCreate(old(db.Snapshot()), eventId, attendeeId);
        c.Ok? ==>
          && r == Ok(Registration(newId, eventId, attendeeId, now))
          && db.registrations == old(db.registrations) + [r.value]
          && db.events == old(db.events) && db.attendees == old(db.attendees)
          && email.queue == old(email.queue) + [BuildJob(RegistrationConfirmation, c.value.1.email, c.value.0.name, c.value.0.date)]
          && gateway.sent == old(gateway.sent) + CapacityNotice(c.value.0, RegistrationsOf(old(db.registrations), eventId))
    {
      var event := FindEvent(db.events, eventId);
      if event.None? {
        return Err(NotFound("Event not found"));
      }
      var loaded := RegistrationsOf(db.registrations, eventId);
      var attendee := FindAttendee(db.attendees, attendeeId);
      if attendee.None? {
        return Err(NotFound("Attendee not found"));
      }
      var existing := FindPair(db.registrations, eventId, attendeeId);
      if existing.Some? {
        return Err(BadRequest("Attendee is already registered for this event"));
      }
      if |loaded| >= event.value.maxAttendees {
        return Err(BadRequest("Event has reached maximum capacity"));
      }
      var registration := Registration(newId, event.value.id, attendee.value.id, now);
      CreatePreservesConsistency(db.Snapshot(), eventId, attendeeId, newId, now);
      InsertCreated(registration, event.value, attendee.value, loaded);
      r := Ok(registration);
    }

    /** `findByEventId`: the registrations of the event in storage order, or
        NotFound when it has none. */
    method FindByEventId(eventId: Id) returns (r: Result<seq<Registration>>)
      ensures r.Err? <==> forall x :: x in db.registrations ==> x.eventId != eventId
      ensures r.Err? ==> r.error == NotFound("No registrations found for event " + eventId)
      ensures r.Ok? ==> r.value == RegistrationsOf(db.registrations, eventId) && |r.value| > 0
      ensures r.Ok? ==> forall x :: x in r.value <==> x in db.registrations && x.eventId == eventId
    {
      var registrations := RegistrationsOf(db.registrations, eventId);
      if |registrations| == 0 {
        return Err(NotFound("No registrations found for event " + eventId));
      }
      assert registrations[0] in registrations;
      r := Ok(registrations);
    }

    /** `getRegistrationCount`: the number of registrations of the event,
        which never exceeds the event's maximum in a consistent store. */
    method GetRegistrationCount(eventId: Id) returns (n: nat)
      ensures n == |RegistrationsOf(db.registrations, eventId)|
      ensures n == 0 <==> forall x :: x in db.registrations ==> x.eventId != eventId
      ensures db.Valid() && FindEvent(db.events, eventId).Some? ==> n <= FindEvent(db.events, eventId).value.maxAttendees
    {
      var registrations := RegistrationsOf(db.registrations, eventId);
      if |registrations| > 0 {
        assert registrations[0] in registrations;
      }
      n := |registrations|;
    }

    /** `remove`: NotFound for an unknown id, with nothing changed; otherwise
        the registration is deleted, the event's `registrations:` and `events:`
        keys are invalidated, `maxAttendees + 1` is broadcast as the remaining
        spots and one cancellation job is enqueued. */
    method Remove(id: Id) returns (r: Result<()>)
      requires db.Valid()
      modifies db, cache, gateway, email
      ensures db.Valid()
      ensures FindRegistration(old(db.registrations), id).None? ==>
        && r == Err(NotFound("Registration with ID " + id + " not found"))
        && db.Snapshot() == old(db.Snapshot()) && cache.entries == old(cache.entries)
        && gateway.sent == old(gateway.sent) && email.queue == old(email.queue)
      ensures FindRegistration(old(db.registrations), id).Some? ==>
        var reg := FindRegistration(old(db.registrations), id).value;
        var event := FindEvent(old(db.events), reg.eventId).value;
        var attendee := FindAttendee(old(db.attendees), reg.attendeeId).value;
        && r == Ok(())
        && db.registrations == Without(old(db.registrations), RegistrationIdOf, id)
        && db.events == old(db.events) && db.attendees == old(db.attendees)
        && cache.entries == old(cache.entries) - {RegistrationPrefix + reg.eventId} - {EventPrefix + reg.eventId}
        && gateway.sent == old(gateway.sent) + [CapacityUpdate(reg.eventId, RemovalRemainingSpots(event, None))]
        && email.queue == old(email.queue) + [BuildJob(RegistrationCancellation, attendee.email, event.name, event.date)]
    {
      var registration := FindRegistration(db.registrations, id);
      if registration.None? {
        return Err(NotFound("Registration with ID " + id + " not found"));
      }
      var reg := registration.value;
      ReferencesResolve(db.Snapshot(), reg);
      RemovePreservesConsistency(db.Snapshot(), reg);
      // The relations `event` and `attendee` are loaded; `event.registrations` is not.
      var event := FindEvent(db.events, reg.eventId).value;
      var attendee := FindAttendee(db.attendees, reg.attendeeId).value;
      DeleteRemoved(reg, event, attendee);
      r := Ok(());
    }

    /** The writes of a successful `create`: insert the registration,
        enqueue the confirmation, broadcast the capacity notice computed from
        the list `loaded` before the insert. */
    method InsertCreated(registration: Registration, event: Event, attendee: Attendee, loaded: seq<Registration>)
      modifies db, gateway, email
      ensures db.registrations == old(db.registrations) + [registration]
      ensures db.events == old(db.events) && db.attendees == old(db.attendees)
      ensures email.queue == old(email.queue) + [BuildJob(RegistrationConfirmation, attendee.email, event.name, event.date)]
      ensures gateway.sent == old(gateway.sent) + CapacityNotice(event, loaded)
    {
      db.InsertRegistration(registration);
      email.SendRegistrationConfirmation(attendee.email, event.name, event.date);
      CheckAndNotifyCapacity(event, loaded);
    }

    /** The writes of a successful `remove`: delete the registration,
        invalidate the event's `registrations:` and `events:` keys, broadcast
        the remaining spots computed without the event's registration list,
        enqueue the cancellation. */
    method DeleteRemoved(reg: Registration, event: Event, attendee: Attendee)
      modifies db, cache, gateway, email
      ensures db.registrations == Without(old(db.registrations), RegistrationIdOf, reg.id)
      ensures db.events == old(db.events) && db.attendees == old(db.attendees)
      ensures cache.entries == old(cache.entries) - {RegistrationPrefix + reg.eventId} - {EventPrefix + reg.eventId}
      ensures gateway.sent == old(gateway.sent) + [CapacityUpdate(reg.eventId, RemovalRemainingSpots(event, None))]
      ensures email.queue == old(email.queue) + [BuildJob(RegistrationCancellation, attendee.email, event.name, event.date)]
    {
      db.DeleteRegistration(reg.id);
      cache.Del(RegistrationPrefix + reg.eventId);
      cache.Del(EventPrefix + reg.eventId);
      var remainingSpots := RemovalRemainingSpots(event, None);
      gateway.NotifyEventCapacityUpdate(reg.eventId, remainingSpots);
      email.SendRegistrationCancellation(attendee.email, event.name, event.date);
    }

    /** `checkAndNotifyCapacity`: broadcasts the remaining spots of `event`,
        computed from the list `loaded` with it, when at most two are left. */
    method CheckAndNotifyCapacity(event: Event, loaded: seq<Registration>)
      modifies gateway
      ensures gateway.sent == old(gateway.sent) + CapacityNotice(event, loaded)
      ensures |gateway.sent| == |old(gateway.sent)| + (if event.maxAttendees - |loaded| <= 2 then 1 else 0)
    {
      var remainingSpots := event.maxAttendees - |loaded|;
      if remainingSpots <= 2 {
        gateway.NotifyEventCapacityUpdate(event.id, remainingSpots);
      }
    }
  }
}
