/** The three database tables (events, attendees, registrations) and the
    integrity rules the services maintain over them. Each table is a
    sequence of rows in storage order; lookups return the first matching
    row, as an unordered `findOne` does on a table read in storage order. */
module Store {
  import opened Common
  import opened Seqs

  /** A row of `events` (event.entity.ts). */
  datatype Event = Event(
    id: Id,
    name: string,
    description: Option<string>,
    date: Time,
    location: Option<string>,
    maxAttendees: int,
    createdAt: Time)

  /** A row of `attendees` (attendee.entity.ts). */
  datatype Attendee = Attendee(id: Id, name: string, email: string)

  /** A row of `registrations` (registration.entity.ts). */
  datatype Registration = Registration(id: Id, eventId: Id, attendeeId: Id, registeredAt: Time)

  /** A snapshot of the whole database. */
  datatype Tables = Tables(
    events: seq<Event>,
    attendees: seq<Attendee>,
    registrations: seq<Registration>)

  // Keys by which rows are found, deleted and kept unique.
  function EventIdOf(e: Event): Id { e.id }
  function AttendeeIdOf(a: Attendee): Id { a.id }
  function EmailOf(a: Attendee): string { a.email }
  function RegistrationIdOf(r: Registration): Id { r.id }
  function EventOfRegistration(r: Registration): Id { r.eventId }
  function AttendeeOfRegistration(r: Registration): Id { r.attendeeId }
  function PairOf(r: Registration): (Id, Id) { (r.eventId, r.attendeeId) }

  function FindEvent(events: seq<Event>, id: Id): Option<Event> {
    FindByKey(events, EventIdOf, id)
  }

  function FindAttendee(attendees: seq<Attendee>, id: Id): Option<Attendee> {
    FindByKey(attendees, AttendeeIdOf, id)
  }

  function FindAttendeeByEmail(attendees: seq<Attendee>, email: string): Option<Attendee> {
    FindByKey(attendees, EmailOf, email)
  }

  function FindRegistration(registrations: seq<Registration>, id: Id): Option<Registration> {
    FindByKey(registrations, RegistrationIdOf, id)
  }

  /** The registration of `attendeeId` for `eventId`, if any. */
  function FindPair(registrations: seq<Registration>, eventId: Id, attendeeId: Id): Option<Registration> {
    FindByKey(registrations, PairOf, (eventId, attendeeId))
  }

  /** The registrations of one event, in storage order: the loaded
      `event.registrations` relation and the rows `count({ eventId })` counts. */
  function RegistrationsOf(registrations: seq<Registration>, eventId: Id): seq<Registration> {
    Filter(registrations, ForEvent(eventId))
  }

  /** The registrations of one attendee, in storage order: the loaded
      `attendee.registrations` relation. */
  function RegistrationsOfAttendee(registrations: seq<Registration>, attendeeId: Id): seq<Registration> {
    Filter(registrations, ForAttendee(attendeeId))
  }

  // The selections above, as named predicates so that lemmas speak of the same ones.
  function ForEvent(eventId: Id): Registration -> bool {
    (r: Registration) => r.eventId == eventId
  }

  function ForAttendee(attendeeId: Id): Registration -> bool {
    (r: Registration) => r.attendeeId == attendeeId
  }

  /** The integrity rules of the store: primary keys, the unique email and
      (event, attendee) pair, both foreign keys, and no event holding more
      registrations than its `maxAttendees`. */
  ghost predicate Consistent(t: Tables) {
    && Distinct(t.events, EventIdOf)
    && Distinct(t.attendees, AttendeeIdOf)
    && Distinct(t.registrations, RegistrationIdOf)
    && Distinct(t.attendees, EmailOf)
    && Distinct(t.registrations, PairOf)
    && (forall r :: r in t.registrations ==> FindEvent(t.events, r.eventId).Some?)
    && (forall r :: r in t.registrations ==> FindAttendee(t.attendees, r.attendeeId).Some?)
    && (forall e :: e in t.events ==> |RegistrationsOf(t.registrations, e.id)| <= e.maxAttendees)
  }

  /** The repositories, whose rows the services save and remove. */
  class Database {
    var events: seq<Event>
    var attendees: seq<Attendee>
    var registrations: seq<Registration>

    constructor ()
      ensures events == [] && attendees == [] && registrations == []
      ensures Valid()
    {
      events, attendees, registrations := [], [], [];
    }

    function Snapshot(): Tables
      reads this
    {
      Tables(events, attendees, registrations)
    }

    ghost predicate Valid()
      reads this
    {
      Consistent(Snapshot())
    }

    // Repository writes: `save` of a new row appends it, `save` of a row
    // whose id exists replaces that row, `remove` deletes the row by id.

    method InsertEvent(e: Event)
      modifies this
      ensures events == old(events) + [e]
      ensures attendees == old(attendees) && registrations == old(registrations)
    {
      events := events + [e];
    }

    method SaveEvent(e: Event)
      modifies this
      ensures events == Replace(old(events), EventIdOf, e)
      ensures attendees == old(attendees) && registrations == old(registrations)
    {
      events := Replace(events, EventIdOf, e);
    }

    method DeleteEvent(id: Id)
      modifies this
      ensures events == Without(old(events), EventIdOf, id)
      ensures attendees == old(attendees) && registrations == old(registrations)
    {
      events := Without(events, EventIdOf, id);
    }

    method InsertAttendee(a: Attendee)
      modifies this
      ensures attendees == old(attendees) + [a]
      ensures events == old(events) && registrations == old(registrations)
    {
      attendees := attendees + [a];
    }

    method DeleteAttendee(id: Id)
      modifies this
      ensures attendees == Without(old(attendees), AttendeeIdOf, id)
      ensures events == old(events) && registrations == old(registrations)
    {
      attendees := Without(attendees, AttendeeIdOf, id);
    }

    method InsertRegistration(r: Registration)
      modifies this
      ensures registrations == old(registrations) + [r]
      ensures events == old(events) && attendees == old(attendees)
    {
      registrations := registrations + [r];
    }

    method DeleteRegistration(id: Id)
      modifies this
      ensures registrations == Without(old(registrations), RegistrationIdOf, id)
      ensures events == old(events) && attendees == old(attendees)
    {
      registrations := Without(registrations, RegistrationIdOf, id);
    }
  }
}
