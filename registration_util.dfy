/** Capacity statistics, the low-capacity warning, the registration cache
    key and the registration response projection (registration.util.ts). */
module RegistrationUtil {
  import opened Common
  import opened Store

  /** CAPACITY_THRESHOLDS in registration.constants.ts. */
  const CapacityWarning: int := 2
  const CapacityCritical: int := 0

  const RegistrationEventKeyPrefix: string := "registrations:event:"

  datatype RegistrationStats = RegistrationStats(
    totalRegistrations: int,
    availableSpots: int,
    isFullyBooked: bool)

  datatype EventSummary = EventSummary(name: string, date: Time, location: Option<string>)
  datatype AttendeeSummary = AttendeeSummary(name: string, email: string)

  datatype RegistrationResponse = RegistrationResponse(
    id: Id,
    eventId: Id,
    attendeeId: Id,
    registeredAt: Time,
    event: Option<EventSummary>,
    attendee: Option<AttendeeSummary>)

  /** Statistics for an event with `currentRegistrations` of `maxAttendees` taken. */
  function CalculateStats(currentRegistrations: int, maxAttendees: int): (s: RegistrationStats)
    ensures s.totalRegistrations == currentRegistrations
    ensures s.availableSpots + currentRegistrations == maxAttendees
    ensures s.isFullyBooked <==> currentRegistrations >= maxAttendees
  {
    var availableSpots := maxAttendees - currentRegistrations;
    RegistrationStats(currentRegistrations, availableSpots, availableSpots <= CapacityCritical)
  }

  /** Whether a capacity warning is due for this many remaining spots. */
  function ShouldSendCapacityWarning(availableSpots: int): (b: bool)
    ensures b <==> 0 < availableSpots <= 2
  {
    availableSpots <= CapacityWarning && availableSpots > CapacityCritical
  }

  /** Every spot count is in exactly one of three states: fully booked,
      warning, or neither; the warning never fires for a full event. */
  lemma WarningAndFullyBookedExclusive(currentRegistrations: int, maxAttendees: int)
    ensures var s := CalculateStats(currentRegistrations, maxAttendees);
      !(s.isFullyBooked && ShouldSendCapacityWarning(s.availableSpots))
    ensures var s := CalculateStats(currentRegistrations, maxAttendees);
      ShouldSendCapacityWarning(s.availableSpots) <==>
        currentRegistrations < maxAttendees <= currentRegistrations + CapacityWarning
  {
  }

  /** `registrations:event:<eventId>`. */
  function GenerateCacheKey(eventId: Id): (key: string)
    ensures |key| == |RegistrationEventKeyPrefix| + |eventId|
    ensures key[..|RegistrationEventKeyPrefix|] == RegistrationEventKeyPrefix
    ensures key[|RegistrationEventKeyPrefix|..] == eventId
  {
    RegistrationEventKeyPrefix + eventId
  }

  /** Distinct events have distinct registration cache keys. */
  lemma CacheKeyInjective(a: Id, b: Id)
    ensures GenerateCacheKey(a) == GenerateCacheKey(b) ==> a == b
  {
    if GenerateCacheKey(a) == GenerateCacheKey(b) {
      assert a == GenerateCacheKey(a)[|RegistrationEventKeyPrefix|..];
    }
  }

  /** The key this function builds is never the key `registrations:<eventId>`
      that removing a registration deletes for the same event. */
  lemma CacheKeyIsNotRemovalKey(eventId: Id)
    ensures GenerateCacheKey(eventId) != "registrations:" + eventId
  {
    assert |GenerateCacheKey(eventId)| != |"registrations:" + eventId|;
  }

  /** The response projection of a registration row, with the summaries of
      its event and attendee when those relations were loaded. */
  function FormatResponse(r: Registration, event: Option<Event>, attendee: Option<Attendee>): (resp: RegistrationResponse)
    ensures resp.id == r.id && resp.eventId == r.eventId
    ensures resp.attendeeId == r.attendeeId && resp.registeredAt == r.registeredAt
    ensures resp.event.Some? <==> event.Some?
    ensures event.Some? ==> (resp.event.value.name == event.value.name
                          && resp.event.value.date == event.value.date
                          && resp.event.value.location == event.value.location)
    ensures resp.attendee.Some? <==> attendee.Some?
    ensures attendee.Some? ==> (resp.attendee.value.name == attendee.value.name
                             && resp.attendee.value.email == attendee.value.email)
  {
    RegistrationResponse(
      r.id, r.eventId, r.attendeeId, r.registeredAt,
      if event.Some? then Some(EventSummary(event.value.name, event.value.date, event.value.location)) else None,
      if attendee.Some? then Some(AttendeeSummary(attendee.value.name, attendee.value.email)) else None)
  }
}
