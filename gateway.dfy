/** The notifications the web-socket gateway broadcasts (event.gateway.ts,
    event.constants.ts). Each broadcast is appended to a log; a capacity
    update goes to the room of its event, the others to every client. */
module Gateway {
  import opened Common
  import opened Store

  datatype Notification =
    | CapacityUpdate(eventId: Id, remainingSpots: int)
    | NewEvent(event: Event)
    | EventUpdated(event: Event)
    | EventDeleted(eventId: Id)

  /** The socket event name of a notification (EVENT_WEBSOCKET_EVENTS). */
  function Name(n: Notification): (name: string)
    ensures name == "eventCapacityUpdate" <==> n.CapacityUpdate?
    ensures name == "newEvent" <==> n.NewEvent?
    ensures name == "eventUpdated" <==> n.EventUpdated?
    ensures name == "eventDeleted" <==> n.EventDeleted?
  {
    assert "eventUpdated"[5] != "eventDeleted"[5];
    match n
    case CapacityUpdate(_, _) => "eventCapacityUpdate"
    case NewEvent(_) => "newEvent"
    case EventUpdated(_) => "eventUpdated"
    case EventDeleted(_) => "eventDeleted"
  }

  /** The room a notification is sent to, or `None` for every client. */
  function Room(n: Notification): (room: Option<string>)
    ensures room.Some? <==> n.CapacityUpdate?
    ensures n.CapacityUpdate? ==> room.value == "event-" + n.eventId
  {
    if n.CapacityUpdate? then Some("event-" + n.eventId) else None
  }

  /** Clients tell the four kinds of notification apart by name. */
  lemma NamesDistinguishKinds(a: Notification, b: Notification)
    ensures Name(a) == Name(b) <==>
      (a.CapacityUpdate? == b.CapacityUpdate? && a.NewEvent? == b.NewEvent? && a.EventUpdated? == b.EventUpdated?)
  {
    assert "eventCapacityUpdate"[1] == 'v' && "newEvent"[1] == 'e';
    assert "eventUpdated"[5] == 'U' && "eventDeleted"[5] == 'D';
    assert "eventCapacityUpdate"[5] == 'C';
  }

  class EventGateway {
    /** Every notification sent so far, oldest first. */
    var sent: seq<Notification>

    constructor ()
      ensures sent == []
    {
      sent := [];
    }

    method NotifyEventCapacityUpdate(eventId: Id, remainingSpots: int)
      modifies this
      ensures sent == old(sent) + [CapacityUpdate(eventId, remainingSpots)]
    {
      sent := sent + [CapacityUpdate(eventId, remainingSpots)];
    }

    method NotifyNewEventCreated(event: Event)
      modifies this
      ensures sent == old(sent) + [NewEvent(event)]
    {
      sent := sent + [NewEvent(event)];
    }

    method NotifyEventUpdated(event: Event)
      modifies this
      ensures sent == old(sent) + [EventUpdated(event)]
    {
      sent := sent + [EventUpdated(event)];
    }

    method NotifyEventDeleted(eventId: Id)
      modifies this
      ensures sent == old(sent) + [EventDeleted(eventId)]
    {
      sent := sent + [EventDeleted(eventId)];
    }
  }
}
