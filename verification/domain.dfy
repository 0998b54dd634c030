/** The records the access layer reads, and the request facts it is handed.
    Database lookups become functions over explicit collections. */
module Domain {
  import opened Wrappers

  type UserId = nat

  /** The requesting user: `None` is Django's anonymous user, `Some(u)` an
      authenticated user with primary key `u`. */
  type Caller = Option<UserId>

  /** HTTP request methods that reach the permission classes. */
  datatype Method = Get | Head | Options | Post | Put | Patch | Delete

  /** Django REST framework's SAFE_METHODS: GET, HEAD and OPTIONS. */
  predicate IsSafe(m: Method) {
    m == Get || m == Head || m == Options
  }

  /** Model equality `x == request.user`: an anonymous caller equals no user. */
  predicate IsCaller(caller: Caller, u: UserId) {
    caller == Some(u)
  }

  /** An event row together with its `invited_users` relation. */
  datatype Event = Event(
    id: nat,
    title: string,
    description: string,
    location: string,
    organizer: UserId,
    startTime: int,
    endTime: int,
    isPublic: bool,
    invitedUsers: set<UserId>)

  /** The writable fields of an event, as a create request supplies them. */
  datatype EventDraft = EventDraft(
    title: string,
    description: string,
    location: string,
    startTime: int,
    endTime: int,
    isPublic: bool)

  function DraftOf(e: Event): EventDraft {
    EventDraft(e.title, e.description, e.location, e.startTime, e.endTime, e.isPublic)
  }

  datatype Rsvp = Rsvp(id: nat, eventId: nat, user: UserId, status: string)

  datatype Review = Review(id: nat, eventId: nat, user: UserId, rating: int, comment: string)

  /** The status key `'going'` that the review permission looks for. */
  const Going: string := "going"

  /** Primary keys are unique in the event table. */
  predicate UniqueIds(events: seq<Event>) {
    forall i, j :: 0 <= i < |events| && 0 <= j < |events| && events[i].id == events[j].id ==> i == j
  }

  /** `Event.objects.get(id=id)`: the event with that id, or `None` where the
      source catches `Event.DoesNotExist`. */
  function Lookup(events: seq<Event>, id: nat): (found: Option<Event>)
    ensures found.Some? ==> found.value in events && found.value.id == id
    ensures found.None? <==> forall e :: e in events ==> e.id != id
  {
    if |events| == 0 then None
    else if events[0].id == id then Some(events[0])
    else Lookup(events[1..], id)
  }

  /** With unique ids, the lookup of a stored event's id finds that event. */
  lemma LookupFindsStored(events: seq<Event>, e: Event)
    requires UniqueIds(events)
    requires e in events
    ensures Lookup(events, e.id) == Some(e)
  {
  }

  /** `RSVP.objects.filter(event=..., user=..., status='going').exists()`. */
  predicate HasGoingRsvp(rsvps: seq<Rsvp>, eventId: nat, u: UserId) {
    exists r :: r in rsvps && r.eventId == eventId && r.user == u && r.status == Going
  }

  /** Some RSVP, of any status, links user `u` to event `eventId`. */
  predicate HasRsvp(rsvps: seq<Rsvp>, eventId: nat, u: UserId) {
    exists r :: r in rsvps && r.eventId == eventId && r.user == u
  }
}
