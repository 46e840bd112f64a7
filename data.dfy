/** The shared in-memory database: the `users` and `events` arrays every handler reads
    and changes in place, and the records they hold. */
module Data {
  import opened Js

  const Attendee := "attendee"
  const Organizer := "organizer"

  /** A stored user; `password` holds the bcrypt hash, never the plaintext. */
  datatype User = User(id: string, name: string, email: string, password: string, role: string)

  datatype Event = Event(
    id: string,
    title: string,
    description: string,
    date: string,
    time: string,
    createdBy: string,
    participants: seq<string>,
    createdAt: string,
    updatedAt: string)

  /** The claims a signed token carries, which become `req.user`: the acting identity. */
  datatype Claims = Claims(id: string, role: string)

  predicate NoDuplicates(s: seq<string>) {
    forall i, j :: 0 <= i < j < |s| ==> s[i] != s[j]
  }

  /** The participant-list invariant: nobody registered twice, the creator never registered. */
  predicate ParticipantsOk(e: Event) {
    NoDuplicates(e.participants) && e.createdBy !in e.participants
  }

  predicate EmailsUnique(users: seq<User>) {
    forall i, j :: 0 <= i < j < |users| ==> users[i].email != users[j].email
  }

  predicate UserIdsUnique(users: seq<User>) {
    forall i, j :: 0 <= i < j < |users| ==> users[i].id != users[j].id
  }

  predicate IdsUnique(events: seq<Event>) {
    forall i, j :: 0 <= i < j < |events| ==> events[i].id != events[j].id
  }

  /** `users.find((u) => u.id === id)`, as an index. */
  function UserIndexById(users: seq<User>, id: string): (i: int)
    ensures -1 <= i < |users|
    ensures 0 <= i ==> users[i].id == id && forall k :: 0 <= k < i ==> users[k].id != id
    ensures i == -1 <==> forall k :: 0 <= k < |users| ==> users[k].id != id
  {
    FindIndex(users, (u: User) => u.id == id)
  }

  /** `users.find((u) => u.email === email)`, as an index. */
  function UserIndexByEmail(users: seq<User>, email: string): (i: int)
    ensures -1 <= i < |users|
    ensures 0 <= i ==> users[i].email == email && forall k :: 0 <= k < i ==> users[k].email != email
    ensures i == -1 <==> forall k :: 0 <= k < |users| ==> users[k].email != email
  {
    FindIndex(users, (u: User) => u.email == email)
  }

  /** `events.findIndex((e) => e.id === id)`; `events.find` returns the event at this index. */
  function EventIndex(events: seq<Event>, id: string): (i: int)
    ensures -1 <= i < |events|
    ensures 0 <= i ==> events[i].id == id && forall k :: 0 <= k < i ==> events[k].id != id
    ensures i == -1 <==> forall k :: 0 <= k < |events| ==> events[k].id != id
  {
    FindIndex(events, (e: Event) => e.id == id)
  }

  /** The two arrays of the shared database. */
  class Store {
    var users: seq<User>
    var events: seq<Event>

    /** What every handler preserves: emails are unique and every participant list keeps
        its invariant. */
    ghost predicate Valid()
      reads this
    {
      EmailsUnique(users) && forall k :: 0 <= k < |events| ==> ParticipantsOk(events[k])
    }

    constructor ()
      ensures users == [] && events == []
      ensures Valid()
    {
      users := [];
      events := [];
    }
  }
}
