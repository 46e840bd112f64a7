/** The event handlers. Each runs its checks in a fixed order (not found, then not
    allowed, then invalid input) and leaves the shared `events` array exactly as it was
    when a check fails. The acting identity is an explicit parameter (`req.user`). */
module EventController {
  import opened Js
  import opened Http
  import opened Data
  import opened Validation

  const OnlyOrganizersCreate := "Only organizers can create events"
  const EventCreated := "Event created successfully"
  const EventNotFound := "Event not found"
  const OnlyCreatorUpdates := "Only the event organizer can update this event"
  const EventUpdated := "Event updated successfully"
  const OnlyCreatorDeletes := "Only the event organizer can delete this event"
  const EventDeleted := "Event deleted successfully"
  const AlreadyRegistered := "You are already registered for this event"
  const CreatorCannotRegister := "Event organizer cannot register as a participant"
  const RegisteredForEvent := "Successfully registered for the event"

  /** The part of an event the registration reply shows. */
  datatype EventSummary = EventSummary(id: string, title: string, date: string, time: string)

  /** `isOrganizer(id)`: the role is read from the first stored user with this id, never
      from the caller's claims. */
  predicate IsOrganizer(users: seq<User>, id: string) {
    var i := UserIndexById(users, id);
    i != -1 && users[i].role == Organizer
  }

  /** Only a stored organizer passes `isOrganizer`; an id that is not in `users` never does,
      and with unique ids any stored organizer does. */
  lemma IsOrganizerMeans(users: seq<User>, id: string)
    ensures IsOrganizer(users, id) ==>
      exists k :: 0 <= k < |users| && users[k].id == id && users[k].role == Organizer
    ensures UserIdsUnique(users) ==>
      (IsOrganizer(users, id) <==> exists k :: 0 <= k < |users| && users[k].id == id && users[k].role == Organizer)
  {
  }

  /** The event after `updateEvent` has assigned the provided fields and the timestamp. */
  function Patched(e: Event, body: EventBody, now: string): (p: Event)
    ensures p.id == e.id && p.createdBy == e.createdBy
    ensures p.participants == e.participants && p.createdAt == e.createdAt
    ensures p.updatedAt == now
    ensures p.title == if Truthy(body.title) then body.title.value else e.title
    ensures p.description == if Truthy(body.description) then body.description.value else e.description
    ensures p.date == if Truthy(body.date) then body.date.value else e.date
    ensures p.time == if Truthy(body.time) then body.time.value else e.time
  {
    e.(
      title := if Truthy(body.title) then body.title.value else e.title,
      description := if Truthy(body.description) then body.description.value else e.description,
      date := if Truthy(body.date) then body.date.value else e.date,
      time := if Truthy(body.time) then body.time.value else e.time,
      updatedAt := now)
  }

  /** Applying the same update twice is the same as applying it once, and an update that
      provides nothing only refreshes the timestamp. */
  lemma PatchedIdempotent(e: Event, body: EventBody, now: string)
    ensures Patched(Patched(e, body, now), body, now) == Patched(e, body, now)
    ensures !Truthy(body.title) && !Truthy(body.description) && !Truthy(body.date) && !Truthy(body.time) ==>
      Patched(e, body, now) == e.(updatedAt := now)
  {
  }

  /** Appending an id that is neither registered nor the creator keeps the participant
      invariant and leaves the id registered exactly once. */
  lemma JoinKeepsParticipantsOk(e: Event, userId: string)
    requires ParticipantsOk(e)
    requires userId !in e.participants && userId != e.createdBy
    ensures ParticipantsOk(e.(participants := e.participants + [userId]))
    ensures multiset(e.participants + [userId])[userId] == 1
  {
  }

  /** With unique ids, deleting the event found by `findIndex` leaves no event with that id. */
  lemma DeleteRemovesId(events: seq<Event>, id: string)
    requires IdsUnique(events)
    requires EventIndex(events, id) != -1
    ensures IdsUnique(RemoveAt(events, EventIndex(events, id)))
    ensures EventIndex(RemoveAt(events, EventIndex(events, id)), id) == -1
  {
  }

  /** `getEvents`: the whole array, unchanged. */
  method GetEvents(db: Store) returns (r: Reply<seq<Event>>)
    ensures r.status == 200 && r.payload == Some(db.events)
  {
    r := Reply(200, "", Some(db.events));
  }

  /** `createEvent`: the organizer check (against the stored role), then the creation
      validation, then the push of a fresh event with no participants. */
  method CreateEvent(db: Store, actor: Claims, body: EventBody, freshId: string, now: string,
                     isPast: (string, string) -> bool)
    returns (r: Reply<Event>)
    requires db.Valid()
    modifies db`events
    ensures db.Valid()
    ensures !IsOrganizer(db.users, actor.id) ==>
      r == Reply(403, OnlyOrganizersCreate, None) && db.events == old(db.events)
    ensures IsOrganizer(db.users, actor.id) && ValidateEventData(body, false, isPast).Some? ==>
      r == Reply(400, ValidateEventData(body, false, isPast).value, None) && db.events == old(db.events)
    ensures IsOrganizer(db.users, actor.id) && ValidateEventData(body, false, isPast).None? ==>
      && HasEventFields(body)
      && var e := Event(freshId, body.title.value, body.description.value, body.date.value,
                        body.time.value, actor.id, [], now, now);
         r == Reply(201, EventCreated, Some(e)) && db.events == old(db.events) + [e]
    ensures IdsUnique(old(db.events)) && EventIndex(old(db.events), freshId) == -1 ==> IdsUnique(db.events)
  {
    if !IsOrganizer(db.users, actor.id) {
      return Reply(403, OnlyOrganizersCreate, None);
    }
    var err := ValidateEventData(body, false, isPast);
    if err.Some? {
      return Reply(400, err.value, None);
    }
    var e := Event(freshId, body.title.value, body.description.value, body.date.value,
                   body.time.value, actor.id, [], now, now);
    db.events := db.events + [e];
    r := Reply(201, EventCreated, Some(e));
  }

  /** `updateEvent`: not found, then not the creator, then the update validation; on
      success only the provided fields and the timestamp of that one event change. */
  method UpdateEvent(db: Store, actor: Claims, id: string, body: EventBody, now: string,
                     isPast: (string, string) -> bool)
    returns (r: Reply<Event>)
    requires db.Valid()
    modifies db`events
    ensures db.Valid()
    ensures IdsUnique(old(db.events)) ==> IdsUnique(db.events)
    ensures var i := EventIndex(old(db.events), id);
      && (i == -1 ==> r == Reply(404, EventNotFound, None) && db.events == old(db.events))
      && (i != -1 && old(db.events)[i].createdBy != actor.id ==>
            r == Reply(403, OnlyCreatorUpdates, None) && db.events == old(db.events))
      && (i != -1 && old(db.events)[i].createdBy == actor.id && ValidateEventData(body, true, isPast).Some? ==>
            r == Reply(400, ValidateEventData(body, true, isPast).value, None) && db.events == old(db.events))
      && (i != -1 && old(db.events)[i].createdBy == actor.id && ValidateEventData(body, true, isPast).None? ==>
            var e := Patched(old(db.events)[i], body, now);
            r == Reply(200, EventUpdated, Some(e)) && db.events == old(db.events)[i := e])
  {
    var i := EventIndex(db.events, id);
    if i == -1 {
      return Reply(404, EventNotFound, None);
    }
    var event := db.events[i];
    if event.createdBy != actor.id {
      return Reply(403, OnlyCreatorUpdates, None);
    }
    var err := ValidateEventData(body, true, isPast);
    if err.Some? {
      return Reply(400, err.value, None);
    }
    event := Patched(event, body, now);
    db.events := db.events[i := event];
    r := Reply(200, EventUpdated, Some(event));
  }

  /** `deleteEvent`: not found, then not the creator; on success the found event is spliced
      out and every other event keeps its relative order. */
  method DeleteEvent(db: Store, actor: Claims, id: string) returns (r: Reply<()>)
    requires db.Valid()
    modifies db`events
    ensures db.Valid()
    ensures IdsUnique(old(db.events)) ==> IdsUnique(db.events)
    ensures var i := EventIndex(old(db.events), id);
      && (i == -1 ==> r == Reply(404, EventNotFound, None) && db.events == old(db.events))
      && (i != -1 && old(db.events)[i].createdBy != actor.id ==>
            r == Reply(403, OnlyCreatorDeletes, None) && db.events == old(db.events))
      && (i != -1 && old(db.events)[i].createdBy == actor.id ==>
            r == Reply(200, EventDeleted, None) && db.events == RemoveAt(old(db.events), i))
  {
    var i := EventIndex(db.events, id);
    if i == -1 {
      return Reply(404, EventNotFound, None);
    }
    var event := db.events[i];
    if event.createdBy != actor.id {
      return Reply(403, OnlyCreatorDeletes, None);
    }
    if IdsUnique(db.events) {
      DeleteRemovesId(db.events, id);
    }
    db.events := RemoveAt(db.events, i);
    r := Reply(200, EventDeleted, None);
  }

  /** `registerForEvent`: not found, then already registered, then the creator; on success
      the actor's id is appended once and the confirmation email is attempted. A missing
      user record or a failed email is only logged: the reply is a success either way, and
      `emailSent` reports whether the email went out. */
  method RegisterForEvent(db: Store, actor: Claims, id: string, notify: (string, Event) -> bool)
    returns (r: Reply<EventSummary>, emailSent: bool)
    requires db.Valid()
    modifies db`events
    ensures db.Valid()
    ensures IdsUnique(old(db.events)) ==> IdsUnique(db.events)
    ensures var i := EventIndex(old(db.events), id);
      && (i == -1 ==> r == Reply(404, EventNotFound, None) && db.events == old(db.events) && !emailSent)
      && (i != -1 && actor.id in old(db.events)[i].participants ==>
            r == Reply(400, AlreadyRegistered, None) && db.events == old(db.events) && !emailSent)
      && (i != -1 && actor.id !in old(db.events)[i].participants && old(db.events)[i].createdBy == actor.id ==>
            r == Reply(400, CreatorCannotRegister, None) && db.events == old(db.events) && !emailSent)
      && (i != -1 && actor.id !in old(db.events)[i].participants && old(db.events)[i].createdBy != actor.id ==>
            var e := old(db.events)[i].(participants := old(db.events)[i].participants + [actor.id]);
            var u := UserIndexById(db.users, actor.id);
            && r == Reply(200, RegisteredForEvent, Some(EventSummary(e.id, e.title, e.date, e.time)))
            && db.events == old(db.events)[i := e]
            && (emailSent <==> u != -1 && notify(db.users[u].email, e)))
  {
    var i := EventIndex(db.events, id);
    if i == -1 {
      return Reply(404, EventNotFound, None), false;
    }
    var event := db.events[i];
    var u := UserIndexById(db.users, actor.id);
    if actor.id in event.participants {
      return Reply(400, AlreadyRegistered, None), false;
    }
    if event.createdBy == actor.id {
      return Reply(400, CreatorCannotRegister, None), false;
    }
    JoinKeepsParticipantsOk(event, actor.id);
    event := event.(participants := event.participants + [actor.id]);
    db.events := db.events[i := event];
    // `sendEmail(user.email, event)` inside its own try/catch: without a user record the
    // property access throws, and that failure is swallowed like a failed delivery.
    emailSent := u != -1 && notify(db.users[u].email, event);
    r := Reply(200, RegisteredForEvent, Some(EventSummary(event.id, event.title, event.date, event.time)));
  }

  /** The same actor registering twice for one event: once the first call succeeds, the
      second is refused as a duplicate and changes nothing. */
  method RegisterForEventTwice(db: Store, actor: Claims, id: string, notify: (string, Event) -> bool)
    returns (first: Reply<EventSummary>, second: Reply<EventSummary>)
    requires db.Valid()
    modifies db`events
    ensures db.Valid()
    ensures first.status == 200 ==> second == Reply(400, AlreadyRegistered, None)
    ensures |db.events| == |old(db.events)|
  {
    ghost var i := EventIndex(db.events, id);
    var sent;
    first, sent := RegisterForEvent(db, actor, id, notify);
    if first.status == 200 {
      assert db.events[i].id == id && actor.id in db.events[i].participants;
      assert forall k :: 0 <= k < i ==> db.events[k] == old(db.events)[k];
      assert EventIndex(db.events, id) == i;
    }
    second, sent := RegisterForEvent(db, actor, id, notify);
  }
}
