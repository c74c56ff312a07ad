/** The hourly reminder run (event-reminder.scheduler.ts): select the events
    whose date falls within the next `reminderHours` hours and enqueue one
    reminder per registration of each, event by event and, within an event,
    in registration order. The clock is the parameter `now`. */
module Schedulers {
  import opened Common
  import opened Seqs
  import opened Store
  import opened Email

  /** The default of `reminder.beforeEventHours` (configuration.ts). */
  const DefaultReminderHours: int := 24

  /** `parseInt(REMINDER_BEFORE_EVENT_HOURS, 10) || 24`, where `parsed` is
      `None` when the variable is unset or does not parse (NaN). */
  function ConfiguredReminderHours(parsed: Option<int>): (hours: int)
    ensures hours != 0
    ensures parsed.Some? && parsed.value != 0 ==> hours == parsed.value
    ensures parsed.None? || parsed.value == 0 ==> hours == DefaultReminderHours
  {
    if parsed.Some? && parsed.value != 0 then parsed.value else DefaultReminderHours
  }

  /** `Between(now, now + hours)`: inclusive at both ends, empty when the
      hours are negative. */
  predicate InReminderWindow(date: Time, now: Time, hours: int) {
    now <= date <= now + hours * MsPerHour
  }

  function DueAt(now: Time, hours: int): Event -> bool {
    (e: Event) => InReminderWindow(e.date, now, hours)
  }

  /** The events the run selects, in storage order. */
  function DueEvents(events: seq<Event>, now: Time, hours: int): (due: seq<Event>)
    ensures forall e :: e in due <==> e in events && InReminderWindow(e.date, now, hours)
  {
    Filter(events, DueAt(now, hours))
  }

  /** Every registration in `regs` names a stored attendee. */
  predicate ResolvesAttendees(t: Tables, regs: seq<Registration>) {
    forall r :: r in regs ==> FindAttendee(t.attendees, r.attendeeId).Some?
  }

  /** The reminder for registration `r` of event `e`: to the registration's
      attendee, with the event's name and date. */
  function ReminderFor(t: Tables, r: Registration, e: Event): EmailJob
    requires FindAttendee(t.attendees, r.attendeeId).Some?
  {
    BuildJob(EventReminder, FindAttendee(t.attendees, r.attendeeId).value.email, e.name, e.date)
  }

  /** The reminders for the registrations `regs` of event `e`, in order. */
  function RemindersFor(t: Tables, e: Event, regs: seq<Registration>): (jobs: seq<EmailJob>)
    requires ResolvesAttendees(t, regs)
    ensures |jobs| == |regs|
    ensures forall k :: 0 <= k < |regs| ==> regs[k] in regs && jobs[k] == ReminderFor(t, regs[k], e)
  {
    if regs == [] then []
    else [ReminderFor(t, regs[0], e)] + RemindersFor(t, e, regs[1..])
  }

  /** The reminders for `events`: event by event, each event's registrations
      in storage order. */
  function Reminders(t: Tables, events: seq<Event>): (jobs: seq<EmailJob>)
    requires ResolvesAttendees(t, t.registrations)
    ensures forall job :: job in jobs ==> KindOfTemplate(job.name) == Some(EventReminder)
  {
    if events == [] then []
    else RemindersFor(t, events[0], RegistrationsOf(t.registrations, events[0].id)) + Reminders(t, events[1..])
  }

  lemma {:induction false} RemindersForSnoc(t: Tables, e: Event, regs: seq<Registration>, r: Registration)
    requires ResolvesAttendees(t, regs + [r])
    ensures ResolvesAttendees(t, regs)
    ensures RemindersFor(t, e, regs + [r]) == RemindersFor(t, e, regs) + [ReminderFor(t, r, e)]
  {
    assert forall x :: x in regs ==> x in regs + [r];
    if regs != [] {
      assert (regs + [r])[1..] == regs[1..] + [r];
      RemindersForSnoc(t, e, regs[1..], r);
    }
  }

  lemma RemindersForStep(t: Tables, e: Event, regs: seq<Registration>, j: int)
    requires ResolvesAttendees(t, regs)
    requires 0 <= j < |regs|
    ensures ResolvesAttendees(t, regs[..j + 1]) && ResolvesAttendees(t, regs[..j])
    ensures RemindersFor(t, e, regs[..j + 1]) == RemindersFor(t, e, regs[..j]) + [ReminderFor(t, regs[j], e)]
  {
    assert regs[..j + 1] == regs[..j] + [regs[j]];
    assert forall x :: x in regs[..j + 1] ==> x in regs;
    RemindersForSnoc(t, e, regs[..j], regs[j]);
  }

  lemma {:induction false} RemindersSnoc(t: Tables, events: seq<Event>, e: Event)
    requires ResolvesAttendees(t, t.registrations)
    ensures Reminders(t, events + [e]) == Reminders(t, events) + RemindersFor(t, e, RegistrationsOf(t.registrations, e.id))
  {
    if events == [] {
      assert [e][1..] == [];
    } else {
      var head := RemindersFor(t, events[0], RegistrationsOf(t.registrations, events[0].id));
      var last := RemindersFor(t, e, RegistrationsOf(t.registrations, e.id));
      assert (events + [e])[0] == events[0];
      assert (events + [e])[1..] == events[1..] + [e];
      RemindersSnoc(t, events[1..], e);
      assert Reminders(t, events + [e]) == head + (Reminders(t, events[1..]) + last);
      AppendAssociative(head, Reminders(t, events[1..]), last);
    }
  }

  lemma RegistrationsResolve(t: Tables, eventId: Id)
    requires ResolvesAttendees(t, t.registrations)
    ensures ResolvesAttendees(t, RegistrationsOf(t.registrations, eventId))
  {
  }

  lemma RemindersStep(t: Tables, events: seq<Event>, i: int)
    requires ResolvesAttendees(t, t.registrations)
    requires 0 <= i < |events|
    ensures Reminders(t, events[..i + 1])
         == Reminders(t, events[..i]) + RemindersFor(t, events[i], RegistrationsOf(t.registrations, events[i].id))
  {
    assert events[..i + 1] == events[..i] + [events[i]];
    RemindersSnoc(t, events[..i], events[i]);
  }

  /** Every reminder is for some registration of one of `events`. */
  lemma {:induction false} RemindersSound(t: Tables, events: seq<Event>, job: EmailJob)
    requires ResolvesAttendees(t, t.registrations)
    requires job in Reminders(t, events)
    ensures exists e, r :: e in events && r in RegistrationsOf(t.registrations, e.id) && job == ReminderFor(t, r, e)
  {
    var e := events[0];
    var regs := RegistrationsOf(t.registrations, e.id);
    if job in RemindersFor(t, e, regs) {
      var r := RegistrationFor(t, e, regs, job);
      assert e in events;
    } else {
      RemindersSound(t, events[1..], job);
      var e', r :| e' in events[1..] && r in RegistrationsOf(t.registrations, e'.id) && job == ReminderFor(t, r, e');
      assert e' in events;
    }
  }

  lemma {:induction false} RegistrationFor(t: Tables, e: Event, regs: seq<Registration>, job: EmailJob) returns (r: Registration)
    requires ResolvesAttendees(t, regs)
    requires job in RemindersFor(t, e, regs)
    ensures r in regs && job == ReminderFor(t, r, e)
  {
    if job == ReminderFor(t, regs[0], e) {
      r := regs[0];
    } else {
      assert forall x :: x in regs[1..] ==> x in regs;
      r := RegistrationFor(t, e, regs[1..], job);
    }
  }

  /** Every registration of one of `events` gets its reminder. */
  lemma {:induction false} RemindersComplete(t: Tables, events: seq<Event>, e: Event, r: Registration)
    requires ResolvesAttendees(t, t.registrations)
    requires e in events && r in t.registrations && r.eventId == e.id
    ensures ReminderFor(t, r, e) in Reminders(t, events)
  {
    if events[0] == e {
      ReminderForIn(t, e, RegistrationsOf(t.registrations, e.id), r);
    } else {
      RemindersComplete(t, events[1..], e, r);
    }
  }

  lemma {:induction false} ReminderForIn(t: Tables, e: Event, regs: seq<Registration>, r: Registration)
    requires ResolvesAttendees(t, regs)
    requires r in regs
    ensures ReminderFor(t, r, e) in RemindersFor(t, e, regs)
  {
    if regs[0] != r {
      assert forall x :: x in regs[1..] ==> x in regs;
      ReminderForIn(t, e, regs[1..], r);
    }
  }

  /** The ids of `events`. */
  function EventIds(events: seq<Event>): set<Id> {
    set e | e in events :: e.id
  }

  /** Registrations whose event is one of `ids`. */
  function ForEvents(ids: set<Id>): Registration -> bool {
    (r: Registration) => r.eventId in ids
  }

  lemma EventIdsCons(events: seq<Event>)
    requires events != []
    requires Distinct(events, EventIdOf)
    ensures EventIds(events) == {events[0].id} + EventIds(events[1..])
    ensures events[0].id !in EventIds(events[1..])
  {
    assert forall x :: x in events <==> x == events[0] || x in events[1..];
  }

  /** With distinct event ids there is exactly one reminder per
      registration of the events: as many reminders as registrations
      whose event is among them. */
  lemma {:induction false} ReminderCount(t: Tables, events: seq<Event>)
    requires ResolvesAttendees(t, t.registrations)
    requires Distinct(events, EventIdOf)
    ensures |Reminders(t, events)| == |Filter(t.registrations, ForEvents(EventIds(events)))|
  {
    if events == [] {
      FilterKeepsNone(t.registrations, ForEvents(EventIds(events)));
    } else {
      var e := events[0];
      var rest := events[1..];
      ReminderCount(t, rest);
      EventIdsCons(events);
      FilterDisjointUnion(t.registrations, ForEvents(EventIds(events)), ForEvent(e.id), ForEvents(EventIds(rest)));
    }
  }

  /** What one run enqueues, for a consistent store: a reminder for each
      registration of each event in the window and nothing else, one per
      such registration. */
  lemma RunRemindsExactlyTheDue(t: Tables, now: Time, hours: int)
    requires Consistent(t)
    ensures var jobs := Reminders(t, DueEvents(t.events, now, hours));
      && (forall job :: job in jobs ==>
            exists e, r :: e in t.events && InReminderWindow(e.date, now, hours)
                        && r in t.registrations && r.eventId == e.id && job == ReminderFor(t, r, e))
      && (forall e, r ::
            e in t.events && InReminderWindow(e.date, now, hours) && r in t.registrations && r.eventId == e.id
            ==> ReminderFor(t, r, e) in jobs)
      && |jobs| == |Filter(t.registrations, ForEvents(EventIds(DueEvents(t.events, now, hours))))|
  {
    var due := DueEvents(t.events, now, hours);
    forall job | job in Reminders(t, due)
      ensures exists e, r :: e in t.events && InReminderWindow(e.date, now, hours)
                          && r in t.registrations && r.eventId == e.id && job == ReminderFor(t, r, e)
    {
      RemindersSound(t, due, job);
    }
    forall e, r | e in t.events && InReminderWindow(e.date, now, hours) && r in t.registrations && r.eventId == e.id
      ensures ReminderFor(t, r, e) in Reminders(t, due)
    {
      RemindersComplete(t, due, e, r);
    }
    DistinctFilter(t.events, EventIdOf, DueAt(now, hours));
    ReminderCount(t, due);
  }

  class EventReminderScheduler {
    const db: Database
    const email: EmailService
    const reminderHours: int

    constructor (db: Database, email: EmailService, configuredHours: Option<int>)
      ensures this.db == db && this.email == email
      ensures reminderHours == ConfiguredReminderHours(configuredHours)
    {
      this.db := db;
      this.email := email;
      this.reminderHours := ConfiguredReminderHours(configuredHours);
    }

    /** `sendEventReminders`: appends to the email queue exactly the
        reminders of the events due in the window starting at `now`, and
        changes nothing else. */
    method SendEventReminders(now: Time)
      requires db.Valid()
      modifies email
      ensures email.queue == old(email.queue) + Reminders(db.Snapshot(), DueEvents(db.events, now, reminderHours))
    {
      var t := db.Snapshot();
      var events := DueEvents(db.events, now, reminderHours);
      var i := 0;
      while i < |events|
        invariant 0 <= i <= |events|
        invariant ResolvesAttendees(t, t.registrations)
        invariant email.queue == old(email.queue) + Reminders(t, events[..i])
      {
        var event := events[i];
        var registrations := RegistrationsOf(t.registrations, event.id);
        RegistrationsResolve(t, event.id);
        SendForEvent(t, event, registrations);
        RemindersStep(t, events, i);
        AppendAssociative(old(email.queue), Reminders(t, events[..i]), RemindersFor(t, event, registrations));
        i := i + 1;
      }
      assert events[..i] == events;
    }

    /** The inner loop: one reminder per registration of `event`, in order. */
    method SendForEvent(t: Tables, event: Event, registrations: seq<Registration>)
      requires ResolvesAttendees(t, registrations)
      modifies email
      ensures email.queue == old(email.queue) + RemindersFor(t, event, registrations)
    {
      var j := 0;
      while j < |registrations|
        invariant 0 <= j <= |registrations|
        invariant ResolvesAttendees(t, registrations[..j])
        invariant email.queue == old(email.queue) + RemindersFor(t, event, registrations[..j])
      {
        var registration := registrations[j];
        var attendee := FindAttendee(t.attendees, registration.attendeeId).value;
        email.SendEventReminder(attendee.email, event.name, event.date);
        RemindersForStep(t, event, registrations, j);
        AppendAssociative(old(email.queue), RemindersFor(t, event, registrations[..j]), [ReminderFor(t, registration, event)]);
        j := j + 1;
      }
      assert registrations[..j] == registrations;
    }
  }
}
