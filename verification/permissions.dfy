/** The object- and view-level permission classes of the event API, each a
    total decision over the request method, the caller and explicit records.
    The ORM lookups they perform are replaced by `Lookup` over the event table
    and by membership in the RSVP table; `timezone.now()` is the parameter `now`. */
module Permissions {
  import opened Wrappers
  import opened Domain

  /** `view.kwargs.get('event_id')` passes `if not event_id` only when it is
      present and non-zero (0 is falsy in Python). */
  predicate EventIdGiven(eventId: Option<nat>) {
    eventId.Some? && eventId.value != 0
  }

  /** IsOrganizerOrReadOnly: anyone may read an event; only its organizer may
      change or delete it. */
  function IsOrganizerOrReadOnly(m: Method, caller: Caller, obj: Event): (allowed: bool)
    ensures IsSafe(m) ==> allowed
    ensures !IsSafe(m) ==> (allowed <==> IsCaller(caller, obj.organizer))
    ensures caller.None? ==> (allowed <==> IsSafe(m))
  {
    if IsSafe(m) then true
    else IsCaller(caller, obj.organizer)
  }

  /** IsEventOrganizerOrReadOnly on a nested object (RSVP, review): `parent` is
      the object's `event` attribute, `None` when the object has none. The
      object's own user is not an input: it plays no part in the decision. */
  function IsEventOrganizerOrReadOnly(m: Method, caller: Caller, parent: Option<Event>): (allowed: bool)
    ensures IsSafe(m) ==> allowed
    ensures !IsSafe(m) && parent.None? ==> !allowed
    ensures !IsSafe(m) && parent.Some? ==> (allowed <==> IsCaller(caller, parent.value.organizer))
  {
    if IsSafe(m) then true
    else match parent
      case Some(e) => IsCaller(caller, e.organizer)
      case None => false
  }

  /** CanAccessEvent: public events are open to everyone, anonymous callers
      included; a private event only to its organizer and its invited users. */
  function CanAccessEvent(caller: Caller, obj: Event): (allowed: bool)
    ensures obj.isPublic ==> allowed
    ensures !obj.isPublic && caller.None? ==> !allowed
    ensures !obj.isPublic && caller.Some? ==>
      (allowed <==> caller.value == obj.organizer || caller.value in obj.invitedUsers)
  {
    if obj.isPublic then true
    else if caller.None? then false
    else if caller.value == obj.organizer then true
    else if caller.value in obj.invitedUsers then true
    else false
  }

  /** IsOwnerOrReadOnly: anyone may read an RSVP or review; only the user who
      owns it (`owner`, the object's `user`) may change or delete it. */
  function IsOwnerOrReadOnly(m: Method, caller: Caller, owner: UserId): (allowed: bool)
    ensures IsSafe(m) ==> allowed
    ensures !IsSafe(m) ==> (allowed <==> IsCaller(caller, owner))
    ensures caller.None? ==> (allowed <==> IsSafe(m))
  {
    if IsSafe(m) then true
    else IsCaller(caller, owner)
  }

  /** CanRSVPToEvent (view level): the caller must be authenticated, the URL
      must carry an event id, and that event must exist; then it is granted for
      a public event, an invited caller or the organizer. */
  function CanRSVPToEvent(caller: Caller, eventId: Option<nat>, events: seq<Event>): (allowed: bool)
    ensures caller.None? ==> !allowed
    ensures !EventIdGiven(eventId) ==> !allowed
    ensures EventIdGiven(eventId) && Lookup(events, eventId.value).None? ==> !allowed
    ensures allowed <==>
      caller.Some? && EventIdGiven(eventId) && Lookup(events, eventId.value).Some? &&
      var e := Lookup(events, eventId.value).value;
      e.isPublic || caller.value in e.invitedUsers || caller.value == e.organizer
  {
    if caller.None? then false
    else if !EventIdGiven(eventId) then false
    else match Lookup(events, eventId.value)
      case None => false
      case Some(event) =>
        if event.isPublic then true
        else if caller.value in event.invitedUsers then true
        else if event.organizer == caller.value then true
        else false
  }

  /** CanReviewEvent (view level): anonymous callers are refused even for GET;
      an authenticated GET is granted; any other method needs an event id for an
      existing event that has ended by `now`, and a `'going'` RSVP of the caller. */
  function CanReviewEvent(m: Method, caller: Caller, eventId: Option<nat>, events: seq<Event>,
                          rsvps: seq<Rsvp>, now: int): (allowed: bool)
    ensures caller.None? ==> !allowed
    ensures caller.Some? && m == Get ==> allowed
    ensures caller.Some? && m != Get ==> (allowed <==>
      EventIdGiven(eventId) && Lookup(events, eventId.value).Some? &&
      Lookup(events, eventId.value).value.endTime <= now &&
      HasGoingRsvp(rsvps, eventId.value, caller.value))
  {
    if caller.None? then false
    else if m == Get then true
    else if !EventIdGiven(eventId) then false
    else match Lookup(events, eventId.value)
      case None => false
      case Some(event) =>
        if event.endTime > now then false
        else HasGoingRsvp(rsvps, event.id, caller.value)
  }

  /** For an authenticated caller and an event that exists, the RSVP permission
      makes the same decision as the object-level access check. */
  lemma RsvpPermissionAgreesWithAccess(u: UserId, events: seq<Event>, e: Event)
    requires UniqueIds(events)
    requires e in events && e.id != 0
    ensures CanRSVPToEvent(Some(u), Some(e.id), events) == CanAccessEvent(Some(u), e)
  {
  }

  /** On an event whose id is 0 the two checks part ways: the object check lets
      the organizer of a private event in, while the view check refuses because
      the id 0 is falsy. */
  lemma IdZeroDisagrees()
    ensures exists e: Event, u: UserId ::
      CanAccessEvent(Some(u), e) && !CanRSVPToEvent(Some(u), Some(e.id), [e])
  {
    var e := Event(0, "", "", "", 5, 0, 1, false, {});
    assert CanAccessEvent(Some(5), e);
    assert !CanRSVPToEvent(Some(5), Some(e.id), [e]);
  }

  /** The nested-object check looks at the parent event's organizer, the owner
      check at the object's own user: an RSVP's owner who does not organize its
      event may change it under one and not under the other, and the organizer
      the other way round. */
  lemma NestedCheckIgnoresOwner(m: Method, r: Rsvp, parent: Event)
    requires !IsSafe(m)
    requires r.eventId == parent.id && r.user != parent.organizer
    ensures IsOwnerOrReadOnly(m, Some(r.user), r.user)
    ensures !IsEventOrganizerOrReadOnly(m, Some(r.user), Some(parent))
    ensures !IsOwnerOrReadOnly(m, Some(parent.organizer), r.user)
    ensures IsEventOrganizerOrReadOnly(m, Some(parent.organizer), Some(parent))
  {
  }

  /** Inviting more users never takes access away from anyone. */
  lemma AccessMonotoneInInvitations(caller: Caller, e: Event, more: set<UserId>)
    ensures CanAccessEvent(caller, e) ==>
      CanAccessEvent(caller, e.(invitedUsers := e.invitedUsers + more))
  {
  }

  /** Whatever an anonymous caller may access, every authenticated caller may. */
  lemma AccessMonotoneInAuthentication(u: UserId, e: Event)
    ensures CanAccessEvent(None, e) ==> CanAccessEvent(Some(u), e)
  {
  }

  /** RSVPs that are not the caller's own `'going'` RSVP for this event never
      grant a non-GET review request. */
  lemma ReviewNeedsOwnGoingRsvp(m: Method, u: UserId, eventId: Option<nat>, events: seq<Event>,
                                rsvps: seq<Rsvp>, now: int)
    requires m != Get
    requires CanReviewEvent(m, Some(u), eventId, events, rsvps, now)
    ensures exists r :: (r in rsvps && r.user == u && r.status == Going &&
                         eventId == Some(r.eventId) && r.eventId != 0)
  {
  }

  /** An event that ends exactly at `now` already counts as ended. */
  lemma ReviewAllowedAtEndTime(m: Method, u: UserId, events: seq<Event>, e: Event, rsvps: seq<Rsvp>)
    requires UniqueIds(events)
    requires e in events && e.id != 0
    requires HasGoingRsvp(rsvps, e.id, u)
    ensures CanReviewEvent(m, Some(u), Some(e.id), events, rsvps, e.endTime)
  {
  }
}
