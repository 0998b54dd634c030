/** The event listing query and the record constructors of the three view sets. */
module Views {
  import opened Wrappers
  import opened Domain
  import opened Seqs
  import Permissions
  import Serializers

  // ---------------------------------------------------------------- listing

  /** One row of `event LEFT OUTER JOIN rsvp ON rsvp.event_id = event.id`, the
      join the `rsvps__user` condition makes the query perform. */
  datatype JoinRow = JoinRow(event: Event, rsvp: Option<Rsvp>)

  /** The RSVPs that refer to one event. */
  function RsvpsOf(rsvps: seq<Rsvp>, eventId: nat): (rs: seq<Rsvp>)
    ensures forall r :: r in rs <==> r in rsvps && r.eventId == eventId
  {
    Filter(rsvps, (r: Rsvp) => r.eventId == eventId)
  }

  /** The join rows of one event: one per RSVP of the event, or a single row
      with no RSVP when it has none. */
  function RowsOf(e: Event, rsvps: seq<Rsvp>): (rows: seq<JoinRow>)
    ensures |rows| > 0
    ensures forall row :: row in rows ==>
      row.event == e && (row.rsvp.Some? ==> row.rsvp.value in rsvps && row.rsvp.value.eventId == e.id)
    ensures forall r :: r in rsvps && r.eventId == e.id ==> JoinRow(e, Some(r)) in rows
  {
    var rs := RsvpsOf(rsvps, e.id);
    if |rs| == 0 then [JoinRow(e, None)]
    else
      var rows := seq(|rs|, i requires 0 <= i < |rs| => JoinRow(e, Some(rs[i])));
      assert forall r :: r in rs ==> JoinRow(e, Some(r)) in rows by {
        forall r | r in rs ensures JoinRow(e, Some(r)) in rows {
          var i :| 0 <= i < |rs| && rs[i] == r;
          assert rows[i] == JoinRow(e, Some(r));
        }
      }
      rows
  }

  function OuterJoin(events: seq<Event>, rsvps: seq<Rsvp>): seq<JoinRow> {
    if |events| == 0 then [] else RowsOf(events[0], rsvps) + OuterJoin(events[1..], rsvps)
  }

  /** Every joined row pairs a stored event with nothing or with one of its RSVPs. */
  lemma {:induction false} JoinRowsSound(events: seq<Event>, rsvps: seq<Rsvp>, row: JoinRow)
    requires row in OuterJoin(events, rsvps)
    ensures row.event in events
    ensures row.rsvp.Some? ==> row.rsvp.value in rsvps && row.rsvp.value.eventId == row.event.id
  {
    if row !in RowsOf(events[0], rsvps) {
      JoinRowsSound(events[1..], rsvps, row);
    }
  }

  /** Every stored event has at least one joined row. */
  lemma {:induction false} JoinCoversEvent(events: seq<Event>, rsvps: seq<Rsvp>, e: Event)
    requires e in events
    ensures RowsOf(e, rsvps)[0] in OuterJoin(events, rsvps)
  {
    if events[0] != e {
      assert e in events[1..];
      JoinCoversEvent(events[1..], rsvps, e);
    }
  }

  /** Every RSVP of a stored event has its own joined row. */
  lemma {:induction false} JoinCoversRsvp(events: seq<Event>, rsvps: seq<Rsvp>, e: Event, r: Rsvp)
    requires e in events && r in rsvps && r.eventId == e.id
    ensures JoinRow(e, Some(r)) in OuterJoin(events, rsvps)
  {
    if events[0] != e {
      assert e in events[1..];
      JoinCoversRsvp(events[1..], rsvps, e, r);
    }
  }

  /** The query's condition on one joined row. */
  predicate RowMatches(row: JoinRow, u: UserId) {
    row.event.isPublic || row.event.organizer == u || (row.rsvp.Some? && row.rsvp.value.user == u)
  }

  function Project(rows: seq<JoinRow>): (es: seq<Event>)
    ensures |es| == |rows|
    ensures forall i :: 0 <= i < |rows| ==> es[i] == rows[i].event
  {
    seq(|rows|, i requires 0 <= i < |rows| => rows[i].event)
  }

  /** Who may see an event in a listing, stated over the tables: a public
      event, an event the user organizes, or one the user has an RSVP for. */
  predicate ListedFor(e: Event, u: UserId, rsvps: seq<Rsvp>) {
    e.isPublic || e.organizer == u || HasRsvp(rsvps, e.id, u)
  }

  /** The authenticated query, before DISTINCT: one event per matching row. */
  function MatchingRows(u: UserId, events: seq<Event>, rsvps: seq<Rsvp>): (es: seq<Event>)
    ensures forall e :: e in es <==> e in events && ListedFor(e, u, rsvps)
  {
    var rows := Filter(OuterJoin(events, rsvps), (row: JoinRow) => RowMatches(row, u));
    var es := Project(rows);
    assert forall e :: e in es ==> e in events && ListedFor(e, u, rsvps) by {
      forall e | e in es ensures e in events && ListedFor(e, u, rsvps) {
        var i :| 0 <= i < |es| && es[i] == e;
        assert rows[i] in rows;
        JoinRowsSound(events, rsvps, rows[i]);
      }
    }
    assert forall e :: e in events && ListedFor(e, u, rsvps) ==> e in es by {
      forall e | e in events && ListedFor(e, u, rsvps) ensures e in es {
        var row: JoinRow;
        if e.isPublic || e.organizer == u {
          row := RowsOf(e, rsvps)[0];
          JoinCoversEvent(events, rsvps, e);
        } else {
          var r :| r in rsvps && r.eventId == e.id && r.user == u;
          row := JoinRow(e, Some(r));
          JoinCoversRsvp(events, rsvps, e, r);
        }
        assert row in rows;
        var i :| 0 <= i < |rows| && rows[i] == row;
        assert es[i] == e;
      }
    }
    es
  }

  /** EventViewSet.get_queryset: an anonymous caller lists the public events;
      an authenticated caller lists, each once, the events that are public, that
      they organize, or that they have an RSVP for. The order is not modelled. */
  function VisibleEvents(caller: Caller, events: seq<Event>, rsvps: seq<Rsvp>): (visible: seq<Event>)
    ensures forall e :: e in visible ==> e in events
    ensures caller.None? ==> forall e :: e in visible <==> e in events && e.isPublic
    ensures caller.Some? ==> forall e :: e in visible <==> e in events && ListedFor(e, caller.value, rsvps)
    ensures caller.Some? ==> NoDuplicates(visible)
    ensures caller.None? && NoDuplicates(events) ==> NoDuplicates(visible)
  {
    match caller
    case None =>
      var isPublic := (e: Event) => e.isPublic;
      var listed := Filter(events, isPublic);
      assert NoDuplicates(events) ==> NoDuplicates(listed) by {
        if NoDuplicates(events) {
          FilterNoDuplicates(events, isPublic);
        }
      }
      listed
    case Some(u) =>
      Distinct(MatchingRows(u, events, rsvps))
  }

  /** Everything an anonymous caller lists, every authenticated caller lists too. */
  lemma ListingMonotoneInAuthentication(u: UserId, events: seq<Event>, rsvps: seq<Rsvp>, e: Event)
    requires e in VisibleEvents(None, events, rsvps)
    ensures e in VisibleEvents(Some(u), events, rsvps)
  {
  }

  /** The listing reads RSVPs, not invitations: a user invited to a private
      event may open it, yet it is absent from their listing until they RSVP. */
  lemma InvitationDoesNotList()
    ensures exists e: Event, u: UserId ::
      Permissions.CanAccessEvent(Some(u), e) && e !in VisibleEvents(Some(u), [e], [])
  {
    var e := Event(1, "", "", "", 0, 0, 1, false, {7});
    assert Permissions.CanAccessEvent(Some(7), e);
    assert !ListedFor(e, 7, []);
    assert e !in VisibleEvents(Some(7), [e], []);
  }

  // ---------------------------------------------------------------- perform_create

  /** EventViewSet.perform_create: the saved event carries the request's fields
      and the requesting user as organizer; `id` is the key the database assigns
      and a new event has no invited users. */
  function CreateEvent(draft: EventDraft, user: UserId, id: nat): (e: Event)
    ensures e.organizer == user
    ensures DraftOf(e) == draft
    ensures e.id == id && e.invitedUsers == {}
  {
    Event(id, draft.title, draft.description, draft.location, user,
          draft.startTime, draft.endTime, draft.isPublic, {})
  }

  /** RSVPViewSet.perform_create: the requester becomes the RSVP's user and the
      URL's event id its event. */
  function CreateRsvp(status: string, user: UserId, eventId: nat, id: nat): (r: Rsvp)
    ensures r.user == user && r.eventId == eventId && r.status == status && r.id == id
  {
    Rsvp(id, eventId, user, status)
  }

  /** ReviewViewSet.perform_create: the requester becomes the review's user and
      the URL's event id its event. */
  function CreateReview(rating: int, comment: string, user: UserId, eventId: nat, id: nat): (r: Review)
    ensures r.user == user && r.eventId == eventId && r.rating == rating && r.comment == comment && r.id == id
  {
    Review(id, eventId, user, rating, comment)
  }

  /** The creator of an event is the only caller who may change it, and may
      always open it. */
  lemma CreatorControlsEvent(draft: EventDraft, u: UserId, id: nat, m: Method, caller: Caller)
    ensures Permissions.IsOrganizerOrReadOnly(m, caller, CreateEvent(draft, u, id)) <==>
      IsSafe(m) || caller == Some(u)
    ensures Permissions.CanAccessEvent(Some(u), CreateEvent(draft, u, id))
  {
  }

  /** Once stored, a new event appears in its creator's listing. */
  lemma CreatedEventListedForCreator(draft: EventDraft, u: UserId, id: nat,
                                     events: seq<Event>, rsvps: seq<Rsvp>)
    ensures CreateEvent(draft, u, id) in VisibleEvents(Some(u), events + [CreateEvent(draft, u, id)], rsvps)
  {
  }

  /** An RSVP of any status puts its event into the user's listing, even a
      private event the user is not invited to. */
  lemma RsvpListsEvent(e: Event, events: seq<Event>, rsvps: seq<Rsvp>, status: string, u: UserId, id: nat)
    requires e in events
    ensures e in VisibleEvents(Some(u), events, rsvps + [CreateRsvp(status, u, e.id, id)])
  {
  }

  /** Only the user who made an RSVP or review may change it afterwards. */
  lemma CreatorOwnsRsvpAndReview(status: string, rating: int, comment: string, u: UserId,
                                 eventId: nat, id: nat, m: Method, caller: Caller)
    ensures Permissions.IsOwnerOrReadOnly(m, caller, CreateRsvp(status, u, eventId, id).user) <==>
      IsSafe(m) || caller == Some(u)
    ensures Permissions.IsOwnerOrReadOnly(m, caller, CreateReview(rating, comment, u, eventId, id).user) <==>
      IsSafe(m) || caller == Some(u)
  {
  }

  /** A review saved from a validated rating has a rating between 1 and 5. */
  lemma ValidatedReviewRatingInRange(value: int, comment: string, u: UserId, eventId: nat, id: nat)
    requires Serializers.ValidateRating(value).Success?
    ensures 1 <= CreateReview(Serializers.ValidateRating(value).value, comment, u, eventId, id).rating <= 5
  {
  }

  /** An RSVP saved from a validated status carries a key of the choice table. */
  lemma ValidatedRsvpStatusIsKey(value: string, choices: Serializers.Choices, u: UserId, eventId: nat, id: nat)
    requires Serializers.DistinctKeys(choices)
    requires Serializers.ValidateStatus(value, choices).Success?
    ensures Serializers.IsKey(choices, CreateRsvp(Serializers.ValidateStatus(value, choices).value, u, eventId, id).status)
  {
  }

  /** An event created from a request that passed validation ends after it starts. */
  lemma ValidatedCreateIsOrdered(draft: EventDraft, u: UserId, id: nat)
    requires Serializers.ValidateEvent(Serializers.DataOf(draft), None).Success?
    ensures CreateEvent(draft, u, id).endTime > CreateEvent(draft, u, id).startTime
  {
  }
}
