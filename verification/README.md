# Event API access and validation layer, in Dafny

This project models the decision layer of a small Django REST event API:
organizers create events, users RSVP to them and review them, and private
events are reserved to their organizer and invitees. Three parts are modelled.

- **Permission classes** (`events/permissions.py`). Each is a total boolean
  function. Its inputs are the request method, the caller and explicit records.
  The caller is `Option<UserId>`, where `None` is Django's anonymous user. The
  records are an event (organizer, `is_public`, `invited_users`, `end_time`),
  the event table as a `seq<Event>`, the RSVP table as a `seq<Rsvp>`, and
  `now`.
- **Serializer validators** (`events/serializers.py`). The event time-range
  check, RSVP status normalisation and the review rating bound. Each is a parse
  function that returns `Success(value)` or `Failure(error)` in place of
  raising `ValidationError`.
- **Views** (`events/views.py`). The event listing query
  `EventViewSet.get_queryset` and the three `perform_create` record
  constructors.

Modules: `Wrappers` (`Option`, `Result`), `Domain` (records, safe methods,
event lookup by id), `Seqs` (filter, SQL `DISTINCT`), `Permissions`,
`Serializers`, `Views`.

Modelling choices:

- `obj.organizer == request.user` is `caller == Some(organizer)`. An
  anonymous user equals no stored user.
- `if not event_id` is true for a missing id and also for the id `0`, since
  0 is falsy in Python; the guard then refuses. `EventIdGiven` holds exactly
  when the guard lets the request through: the id is present and non-zero.
- `Event.objects.get(id=...)` is `Lookup`. It returns the first stored event
  with that id, or `None` where the source catches `DoesNotExist`. Lemmas that
  need the lookup to find a given stored event assume unique primary keys
  (`UniqueIds`).
- The authenticated listing is modelled as the SQL it runs. `event LEFT OUTER
  JOIN rsvp` yields one row per RSVP of an event, or one row with no RSVP. The
  `OR` condition filters those rows, the event columns are projected, and
  `DISTINCT` removes the repeats. Row order is not modelled. The contracts
  speak of membership and absence of duplicates only.
- `validate_status` works on the choice table as a parameter, a sequence of
  `(key, label)` pairs with distinct keys, as the items of
  `dict(STATUS_CHOICES)`. The reverse dictionary
  `{v.lower(): k ...}` keeps the last key whose label matches, so
  `ReverseLookup` searches from the end.
- Two different notions of "invited" appear in the source, and both are kept.
  `CanAccessEvent` and `CanRSVPToEvent` read `invited_users`; the listing
  reads "has an RSVP of any status". `Views.InvitationDoesNotList` exhibits
  the difference.
- `CanReviewEvent` always applies the end-time and `'going'` checks to every
  method other than GET.
- `CanAccessEvent` and `CanRSVPToEvent` disagree on an event whose id is `0`:
  the object check grants its organizer, while the view check refuses because
  the id is falsy. `Permissions.IdZeroDisagrees` exhibits such an event.

## Model

| member | source | states |
|---|---|---|
| Domain.Lookup | events/permissions.py:83-86 | the lookup result is a stored event with the requested id; it is `None` exactly when no stored event has that id |
| Domain.LookupFindsStored | events/permissions.py:84 | with unique primary keys, looking up a stored event's id returns that very event |
| Permissions.IsOrganizerOrReadOnly | events/permissions.py:9-14 | GET/HEAD/OPTIONS are always allowed; any other method is allowed iff the caller is the event's organizer; an anonymous caller is limited to safe methods |
| Permissions.IsEventOrganizerOrReadOnly | events/permissions.py:23-30 | safe methods are always allowed; for other methods an object without an `event` is refused, otherwise allowed iff the caller organizes that event; the object's own user is not an input |
| Permissions.CanAccessEvent | events/permissions.py:39-53 | a public event is open to every caller, anonymous included; a private event is refused to anonymous callers and open to an authenticated caller iff they are its organizer or in `invited_users` |
| Permissions.IsOwnerOrReadOnly | events/permissions.py:61-65 | safe methods are always allowed; any other method is allowed iff the caller is the object's user |
| Permissions.CanRSVPToEvent | events/permissions.py:74-98 | refused for an anonymous caller, a missing or zero event id, or an id with no stored event; otherwise granted iff the event is public, the caller is invited, or the caller organizes it |
| Permissions.CanReviewEvent | events/permissions.py:107-135 | anonymous callers are refused even for GET; an authenticated GET is granted; any other method is granted iff the event id is given, the event exists, its end time is not after `now`, and the caller has an RSVP with status exactly `'going'` for it |
| Permissions.RsvpPermissionAgreesWithAccess | events/permissions.py:89-96 | for an authenticated caller and a stored event with a non-zero id (unique ids assumed), the RSVP permission makes the same decision as `CanAccessEvent` |
| Permissions.IdZeroDisagrees | events/permissions.py:79-80 | there is a private event with id 0 whose organizer passes `CanAccessEvent` but is refused by `CanRSVPToEvent`, because the id 0 is falsy |
| Permissions.NestedCheckIgnoresOwner | events/permissions.py:27-28 | for an unsafe method, an RSVP's owner who does not organize its event is refused by the nested-object check yet allowed by the owner check, and the organizer the other way round |
| Permissions.AccessMonotoneInInvitations | events/permissions.py:50-51 | inviting more users never takes event access away from any caller |
| Permissions.AccessMonotoneInAuthentication | events/permissions.py:41-45 | any event an anonymous caller may access, every authenticated caller may access |
| Permissions.ReviewNeedsOwnGoingRsvp | events/permissions.py:129-135 | a granted non-GET review request implies an RSVP by this caller, for the requested event, with status `'going'`; other users' RSVPs and other statuses never grant |
| Permissions.ReviewAllowedAtEndTime | events/permissions.py:126-127 | an event that ends exactly at `now` has ended: a caller with a `'going'` RSVP is granted at that instant |
| Serializers.ValidateEvent | events/serializers.py:26-31 | refuses with the end-time error iff both resolved times are present and the end is not strictly after the start, so equal times are refused; on success returns the data unchanged |
| Serializers.ValidatedUpdateKeepsTimeOrder | events/serializers.py:26-31 | applying a partial update that passed validation against the stored event leaves the event's end strictly after its start |
| Serializers.PartialUpdateUsesStoredStart | events/serializers.py:27-29 | an update that carries only an end time is checked against the stored start time |
| Serializers.MissingTimeIsNotChecked | events/serializers.py:29 | with no instance, a request that omits either time is accepted unchanged |
| Serializers.CreateValidation | events/serializers.py:29-30 | a full create request is accepted iff its end is strictly after its start |
| Serializers.Lower | events/serializers.py:49 | lower-casing keeps the length and maps each letter to its lower-case form |
| Serializers.ReverseLookup | events/serializers.py:50-53 | a hit is the key of the LAST pair whose lower-cased label equals the lower-cased value, as the dict comprehension overwrites earlier entries; a miss happens exactly when no label matches |
| Serializers.LastLabelWins | events/serializers.py:50 | with two labels that lower-case alike, the later pair's key is returned |
| Serializers.ValidateStatus | events/serializers.py:43-57 | an exact key is returned unchanged; otherwise the value is accepted iff some label matches it case-insensitively, and then the key of the last matching label is returned; every accepted result is a key; a refusal carries the list of labels |
| Serializers.StatusIdempotent | events/serializers.py:43-57 | normalising an accepted status again returns the same result |
| Serializers.StatusCaseInsensitive | events/serializers.py:49-53 | two non-key values with the same lower-case form get the same outcome |
| Serializers.GoingLabelAccepted | events/tests.py:30-32 | with a `'going'`/`'Going'` choice, the value `'Going'` (and `'GOING'`) is accepted and stored as `'going'` |
| Serializers.Message | events/serializers.py:55-56 | the status error text starts with `Status must be one of: ` and names every label of the choice table; the time-range and rating errors carry their fixed texts (lines 30 and 71) |
| Serializers.Join | events/serializers.py:56 | every part occurs in the `', '.join(...)` result |
| Serializers.ValidateRating | events/serializers.py:69-72 | a rating is accepted iff it lies in 1..5, so 0 and 6 are refused; an accepted rating is returned unchanged |
| Seqs.Distinct | events/views.py:29 | `DISTINCT` keeps exactly the elements of its input and repeats none |
| Seqs.FilterNoDuplicates | events/views.py:30 | filtering a table without repeated rows yields no repeated rows |
| Views.RowsOf | events/views.py:28 | an event's join rows are non-empty, all carry that event, and include one row for each of its RSVPs |
| Views.JoinRowsSound | events/views.py:28 | every joined row pairs a stored event with nothing or with one of that event's RSVPs |
| Views.JoinCoversEvent | events/views.py:28 | every stored event has a joined row, with or without an RSVP |
| Views.JoinCoversRsvp | events/views.py:28 | every RSVP of a stored event appears in a joined row with that event |
| Views.MatchingRows | events/views.py:25-28 | before `DISTINCT`, an event appears iff it is stored and is public, organized by the caller, or has an RSVP by the caller |
| Views.VisibleEvents | events/views.py:22-30 | only stored events are listed; an anonymous caller gets exactly the public events; an authenticated caller gets exactly the events that are public, organized by them, or RSVPed by them, each once |
| Views.ListingMonotoneInAuthentication | events/views.py:22-30 | every event listed for an anonymous caller is listed for every authenticated caller |
| Views.InvitationDoesNotList | events/views.py:24-28 | there is a private event that an invited user may open but that is missing from their listing, because the listing reads RSVPs, not invitations |
| Views.CreateEvent | events/views.py:32-33 | the saved event's organizer is the requesting user, and its writable fields are exactly the request's |
| Views.CreateRsvp | events/views.py:44-46 | the saved RSVP's user is the requester, its event is the URL's event id, and its status is the validated one |
| Views.CreateReview | events/views.py:57-59 | the saved review's user is the requester, its event is the URL's event id, and its rating and comment are the validated ones |
| Views.CreatorControlsEvent | events/views.py:32-33 | after creation, the creator is the only caller allowed unsafe methods on the event, and the creator can always access it |
| Views.CreatedEventListedForCreator | events/views.py:32-33 | once stored, a new event appears in its creator's listing |
| Views.RsvpListsEvent | events/views.py:44-46 | storing an RSVP of any status puts the event in that user's listing |
| Views.CreatorOwnsRsvpAndReview | events/views.py:57-59 | after creation, only the creating user may change their RSVP or review |
| Views.ValidatedReviewRatingInRange | events/serializers.py:69-72 | a review saved from a validated rating has a rating between 1 and 5 |
| Views.ValidatedRsvpStatusIsKey | events/serializers.py:43-57 | an RSVP saved from a validated status carries a key of the choice table |
| Views.ValidatedCreateIsOrdered | events/serializers.py:26-31 | an event created from a validated request ends strictly after it starts |

## Left out

- `IsInvitedToPrivateEvent`: `events/views.py` imports it and attaches it to the event and RSVP view sets, but `events/permissions.py` does not define it. Its behaviour is not modelled.
- How the permission classes are wired to views is not modelled. This covers DRF's `IsAuthenticated` and `IsAuthenticatedOrReadOnly`, and the order in which a view evaluates its permission classes. `CanRSVPToEvent` and `CanReviewEvent` are attached to no view, so they are modelled as standalone predicates.
- Search, ordering and field filters (`SearchFilter`, `OrderingFilter`, `DjangoFilterBackend`) are not modelled. The order of the listing is not modelled either, because `DISTINCT` promises none.
- Routing (`events/urls.py`, `config/urls.py`), JWT token views, admin, media serving and the welcome payload contain no decision logic and are not modelled.
- Uniqueness of one RSVP or one review per user and event is not modelled. `events/models.py` is not part of this model. Nothing in `events/permissions.py`, `events/serializers.py` or `events/views.py` enforces it.
- The contents of `RSVP.STATUS_CHOICES` are not part of this model. The choice table is a parameter.
- Serializers.Lower: lower-cases only the ASCII letters A-Z, whereas Python's `str.lower()` is Unicode-aware.
- Serializers.ApplyUpdate stands in for DRF's `ModelSerializer.update`. That is library code: every validated field overwrites the instance's.
- `timezone.now()` and the database's key assignment are parameters: `now`, and `id` in the `Create*` constructors.
- `perform_create` receives an authenticated user id. An anonymous request is refused by DRF before it reaches `perform_create`, so the model does not cover it.
- Datetimes are integers. Serializer field parsing is not modelled, so a time present in the request is never null.
- Serializer field plumbing (`read_only_fields`, the `*_name`/`*_title` source fields, `UserProfileSerializer`) is not modelled.
