/** Creating, reading (through the cache) and deleting attendees
    (attendee.service.ts). The checks are functions of the tables; the
    service applies them, writes the attendee table and reads, fills and
    invalidates the `attendees:` cache keys. */
module Attendees {
  import opened Common
  import opened Seqs
  import opened Store
  import opened AttendeeUtil
  import opened Cache

  /** The body of a create request (attendee.dto.ts). */
  datatype CreateAttendeeDto = CreateAttendeeDto(name: string, email: string)

  const InvalidEmailMessage: string := "Invalid email format"
  const EmailTakenMessage: string := "Email already registered"
  const RegistrationsExistMessage: string := "Cannot delete attendee with existing registrations"

  function NotFoundMessage(id: Id): string {
    "Attendee with ID " + id + " not found"
  }

  /** The checks `create` makes, in order: the email matches the pattern,
      then no attendee holds it yet. */
  function CheckCreate(t: Tables, dto: CreateAttendeeDto): (r: Result<()>)
    ensures !ValidateEmail(dto.email) ==> r == Err(BadRequest(InvalidEmailMessage))
    ensures ValidateEmail(dto.email) && (exists a :: a in t.attendees && a.email == dto.email) ==>
              r == Err(BadRequest(EmailTakenMessage))
    ensures r.Ok? <==> ValidateEmail(dto.email) && forall a :: a in t.attendees ==> a.email != dto.email
  {
    if !ValidateEmail(dto.email) then Err(BadRequest(InvalidEmailMessage))
    else if FindAttendeeByEmail(t.attendees, dto.email).Some? then Err(BadRequest(EmailTakenMessage))
    else Ok(())
  }

  /** The checks `remove` makes, in order: the attendee exists, then its
      loaded `registrations` list is empty. On success it gives the row. */
  function CheckRemove(t: Tables, id: Id): (r: Result<Attendee>)
    ensures r.Ok? <==> FindAttendee(t.attendees, id).Some? && forall x :: x in t.registrations ==> x.attendeeId != id
    ensures FindAttendee(t.attendees, id).None? ==> r == Err(NotFound(NotFoundMessage(id)))
    ensures FindAttendee(t.attendees, id).Some? && r.Err? ==> r == Err(BadRequest(RegistrationsExistMessage))
    ensures r.Ok? ==> r.value in t.attendees && r.value.id == id
  {
    var found := FindAttendee(t.attendees, id);
    if found.None? then Err(NotFound(NotFoundMessage(id)))
    else
      var registrations := RegistrationsOfAttendee(t.registrations, id);
      if |registrations| > 0 then
        assert registrations[0] in registrations;
        Err(BadRequest(RegistrationsExistMessage))
      else Ok(found.value)
  }

  /** The attendee's `registrations` relation with each one's `event`
      loaded, in storage order. */
  function LoadedRegistrations(t: Tables, id: Id): (loaded: seq<LoadedRegistration>)
    requires Consistent(t)
    ensures |loaded| == |RegistrationsOfAttendee(t.registrations, id)|
    ensures forall k :: 0 <= k < |loaded| ==>
      && loaded[k].registration == RegistrationsOfAttendee(t.registrations, id)[k]
      && loaded[k].event in t.events
      && loaded[k].event.id == loaded[k].registration.eventId
  {
    var registrations := RegistrationsOfAttendee(t.registrations, id);
    seq(|registrations|, k requires 0 <= k < |registrations| =>
      LoadedRegistration(registrations[k], FindEvent(t.events, registrations[k].eventId).value))
  }

  /** What `findOne` answers against the tables `t` and the cache
      `entries`: the cached response on a hit; on a miss, NotFound for an
      unknown id and otherwise the attendee with its registrations. */
  function Lookup(t: Tables, entries: map<string, AttendeeResponse>, id: Id): (r: Result<AttendeeResponse>)
    requires Consistent(t)
    ensures GenerateCacheKey(id) in entries ==> r == Ok(entries[GenerateCacheKey(id)])
    ensures r.Err? <==> GenerateCacheKey(id) !in entries && FindAttendee(t.attendees, id).None?
    ensures r.Err? ==> r.error == NotFound(NotFoundMessage(id))
    ensures r.Ok? && GenerateCacheKey(id) !in entries ==>
      && r.value.id == id
      && r.value.registrationCount == Some(|RegistrationsOfAttendee(t.registrations, id)|)
  {
    var key := GenerateCacheKey(id);
    if key in entries then Ok(entries[key])
    else
      var found := FindAttendee(t.attendees, id);
      if found.None? then Err(NotFound(NotFoundMessage(id)))
      else Ok(FormatResponse(found.value, Some(LoadedRegistrations(t, id))))
  }

  /** On a hit, `findOne` does not look at the store: any two stores give
      the same answer, however their registrations differ. */
  lemma CacheHitIgnoresStore(t1: Tables, t2: Tables, entries: map<string, AttendeeResponse>, id: Id)
    requires Consistent(t1) && Consistent(t2)
    requires GenerateCacheKey(id) in entries
    ensures Lookup(t1, entries, id) == Lookup(t2, entries, id) == Ok(entries[GenerateCacheKey(id)])
  {
  }

  /** On a miss for a known attendee, the response carries the attendee's
      id, name and email, the number of its registrations and, in order,
      the event of each. */
  lemma MissReportsRegistrations(t: Tables, entries: map<string, AttendeeResponse>, id: Id)
    requires Consistent(t)
    requires GenerateCacheKey(id) !in entries
    requires FindAttendee(t.attendees, id).Some?
    ensures var r := Lookup(t, entries, id);
      var a := FindAttendee(t.attendees, id).value;
      var regs := RegistrationsOfAttendee(t.registrations, id);
      && r.Ok?
      && r.value.id == id && r.value.name == a.name && r.value.email == a.email
      && r.value.registrationCount == Some(|regs|)
      && |r.value.events.value| == |regs|
      && forall k :: 0 <= k < |regs| ==>
           r.value.events.value[k].id == regs[k].eventId
           && exists e :: e in t.events && e.id == regs[k].eventId && r.value.events.value[k] == Brief(e)
  {
    var r := Lookup(t, entries, id);
    var loaded := LoadedRegistrations(t, id);
    var regs := RegistrationsOfAttendee(t.registrations, id);
    forall k | 0 <= k < |regs|
      ensures r.value.events.value[k].id == regs[k].eventId
      ensures exists e :: e in t.events && e.id == regs[k].eventId && r.value.events.value[k] == Brief(e)
    {
      assert loaded[k].event in t.events;
    }
  }

  /** What a miss stores is what the next `findOne` answers, whatever the
      store holds by then. */
  lemma MissThenHit(t: Tables, t': Tables, entries: map<string, AttendeeResponse>, id: Id)
    requires Consistent(t) && Consistent(t')
    requires Lookup(t, entries, id).Ok?
    ensures var r := Lookup(t, entries, id);
      Lookup(t', entries[GenerateCacheKey(id) := r.value], id) == r
  {
  }

  /** A successful `create` keeps every integrity rule: the new attendee's
      id and email are new. */
  lemma CreatePreservesConsistency(t: Tables, dto: CreateAttendeeDto, id: Id)
    requires Consistent(t)
    requires CheckCreate(t, dto).Ok?
    requires FindAttendee(t.attendees, id).None?
    ensures Consistent(t.(attendees := t.attendees + [Attendee(id, dto.name, dto.email)]))
  {
    var a := Attendee(id, dto.name, dto.email);
    var t' := t.(attendees := t.attendees + [a]);
    DistinctSnoc(t.attendees, AttendeeIdOf, a);
    DistinctSnoc(t.attendees, EmailOf, a);
    forall r | r in t'.registrations
      ensures FindAttendee(t'.attendees, r.attendeeId).Some?
    {
      assert FindAttendee(t.attendees, r.attendeeId).value in t'.attendees;
    }
  }

  /** Deleting an attendee no registration references keeps every
      integrity rule of the store. */
  lemma RemovePreservesConsistency(t: Tables, id: Id)
    requires Consistent(t)
    requires CheckRemove(t, id).Ok?
    ensures Consistent(t.(attendees := Without(t.attendees, AttendeeIdOf, id)))
  {
    var attendees' := Without(t.attendees, AttendeeIdOf, id);
    DistinctWithout(t.attendees, AttendeeIdOf, AttendeeIdOf, id);
    DistinctWithout(t.attendees, EmailOf, AttendeeIdOf, id);
    forall r | r in t.registrations
      ensures FindAttendee(attendees', r.attendeeId).Some?
    {
      assert FindAttendee(t.attendees, r.attendeeId).value in attendees';
    }
  }

  /** After a successful `remove`, `findOne` for the same id answers
      NotFound: the key `remove` deletes is the key `findOne` reads. */
  lemma RemovedAttendeeNotFound(t: Tables, entries: map<string, AttendeeResponse>, id: Id)
    requires Consistent(t)
    requires CheckRemove(t, id).Ok?
    ensures Consistent(t.(attendees := Without(t.attendees, AttendeeIdOf, id)))
    ensures Lookup(t.(attendees := Without(t.attendees, AttendeeIdOf, id)),
                   entries - {AttendeeCachePrefix + id} - {AllAttendeesKey}, id)
            == Err(NotFound(NotFoundMessage(id)))
  {
    RemovePreservesConsistency(t, id);
  }

  class AttendeeService {
    const db: Database
    const cache: CacheService

    constructor (db: Database, cache: CacheService)
      ensures this.db == db && this.cache == cache
    {
      this.db := db;
      this.cache := cache;
    }

    /** `create`: on a failed check nothing changes; otherwise the new
        attendee is appended and returned without registration data. No
        cache key is touched. */
    method Create(dto: CreateAttendeeDto, newId: Id) returns (r: Result<AttendeeResponse>)
      requires db.Valid()
      requires FindAttendee(db.attendees, newId).None?
      modifies db
      ensures db.Valid()
      ensures cache.entries == old(cache.entries)
      ensures CheckCreate(old(db.Snapshot()), dto).Err? ==>
        && r == Err(CheckCreate(old(db.Snapshot()), dto).error)
        && db.Snapshot() == old(db.Snapshot())
      ensures CheckCreate(old(db.Snapshot()), dto).Ok? ==>
        && db.attendees == old(db.attendees) + [Attendee(newId, dto.name, dto.email)]
        && db.events == old(db.events) && db.registrations == old(db.registrations)
        && r == Ok(AttendeeResponse(newId, dto.name, dto.email, None, None))
    {
      if !ValidateEmail(dto.email) {
        return Err(BadRequest(InvalidEmailMessage));
      }
      var existingAttendee := FindAttendeeByEmail(db.attendees, dto.email);
      if existingAttendee.Some? {
        return Err(BadRequest(EmailTakenMessage));
      }
      var attendee := Attendee(newId, dto.name, dto.email);
      CreatePreservesConsistency(db.Snapshot(), dto, newId);
      db.InsertAttendee(attendee);
      r := Ok(FormatResponse(attendee, None));
    }

    /** `findOne`, cache-aside: answers `Lookup` on the store and the cache;
        a miss that finds the attendee stores the response under its key. */
    method FindOne(id: Id) returns (r: Result<AttendeeResponse>)
      requires db.Valid()
      modifies cache
      ensures r == Lookup(db.Snapshot(), old(cache.entries), id)
      ensures GenerateCacheKey(id) !in old(cache.entries) && r.Ok? ==>
        cache.entries == old(cache.entries)[GenerateCacheKey(id) := r.value]
      ensures GenerateCacheKey(id) in old(cache.entries) || r.Err? ==>
        cache.entries == old(cache.entries)
      ensures r.Ok? ==> GenerateCacheKey(id) in cache.entries && cache.entries[GenerateCacheKey(id)] == r.value
    {
      var cacheKey := GenerateCacheKey(id);
      var cached := cache.Get(cacheKey);
      if cached.Some? {
        return Ok(cached.value);
      }
      var attendee := FindAttendee(db.attendees, id);
      if attendee.None? {
        return Err(NotFound(NotFoundMessage(id)));
      }
      var response := FormatResponse(attendee.value, Some(LoadedRegistrations(db.Snapshot(), id)));
      cache.Set(cacheKey, response);
      r := Ok(response);
    }

    /** `remove`: NotFound for an unknown id and BadRequest when the
        attendee has registrations, with nothing changed; otherwise the
        attendee is deleted and `attendees:<id>` and `attendees:all` are
        invalidated. */
    method Remove(id: Id) returns (r: Result<()>)
      requires db.Valid()
      modifies db, cache
      ensures db.Valid()
      ensures CheckRemove(old(db.Snapshot()), id).Err? ==>
        && r == Err(CheckRemove(old(db.Snapshot()), id).error)
        && db.Snapshot() == old(db.Snapshot()) && cache.entries == old(cache.entries)
      ensures CheckRemove(old(db.Snapshot()), id).Ok? ==>
        && r == Ok(())
        && db.attendees == Without(old(db.attendees), AttendeeIdOf, id)
        && db.events == old(db.events) && db.registrations == old(db.registrations)
        && cache.entries == old(cache.entries) - {AttendeeCachePrefix + id} - {AllAttendeesKey}
    {
      var attendee := FindAttendee(db.attendees, id);
      if attendee.None? {
        return Err(NotFound(NotFoundMessage(id)));
      }
      var registrations := RegistrationsOfAttendee(db.registrations, id);
      if |registrations| > 0 {
        return Err(BadRequest(RegistrationsExistMessage));
      }
      RemovePreservesConsistency(db.Snapshot(), id);
      DeleteRemoved(attendee.value.id);
      r := Ok(());
    }

    /** The writes of a successful `remove`: delete the attendee, invalidate
        its key and the listing key. */
    method DeleteRemoved(id: Id)
      modifies db, cache
      ensures db.attendees == Without(old(db.attendees), AttendeeIdOf, id)
      ensures db.events == old(db.events) && db.registrations == old(db.registrations)
      ensures cache.entries == old(cache.entries) - {AttendeeCachePrefix + id} - {AllAttendeesKey}
    {
      db.DeleteAttendee(id);
      cache.Del(AttendeeCachePrefix + id);
      cache.Del(AllAttendeesKey);
    }
  }
}
