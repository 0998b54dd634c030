/** The field and object validators of the event, RSVP and review serializers,
    as parse functions returning the accepted value or the validation error. */
module Serializers {
  import opened Wrappers
  import opened Domain

  datatype ValidationError =
    | EndNotAfterStart
    | UnknownStatus(labels: seq<string>)
    | RatingOutOfRange

  /** `t` occurs in `s` starting at position `k`. */
  predicate OccursAt(t: string, s: string, k: int) {
    0 <= k && k + |t| <= |s| && s[k..k + |t|] == t
  }

  /** `t` occurs in `s` as a contiguous piece. */
  ghost predicate Occurs(t: string, s: string) {
    exists k :: OccursAt(t, s, k)
  }

  lemma OccursInSuffix(t: string, a: string, b: string)
    requires Occurs(t, b)
    ensures Occurs(t, a + b)
  {
    var k :| OccursAt(t, b, k);
    assert (a + b)[|a| + k..|a| + k + |t|] == b[k..k + |t|];
    assert OccursAt(t, a + b, |a| + k);
  }

  /** The text of the error the serializer raises. The status error names
      every label of the choice table. */
  function Message(err: ValidationError): (msg: string)
    ensures err.EndNotAfterStart? ==> msg == "End time must be after start time."
    ensures err.RatingOutOfRange? ==> msg == "Rating must be between 1 and 5."
    ensures err.UnknownStatus? ==> "Status must be one of: " <= msg
    ensures err.UnknownStatus? ==> forall i :: 0 <= i < |err.labels| ==> Occurs(err.labels[i], msg)
  {
    match err
    case EndNotAfterStart => "End time must be after start time."
    case UnknownStatus(labels) =>
      var prefix := "Status must be one of: ";
      var joined := Join(labels, ", ");
      assert forall i :: 0 <= i < |labels| ==> Occurs(labels[i], prefix + joined) by {
        forall i | 0 <= i < |labels| ensures Occurs(labels[i], prefix + joined) {
          OccursInSuffix(labels[i], prefix, joined);
        }
      }
      prefix + joined
    case RatingOutOfRange => "Rating must be between 1 and 5."
  }

  /** Python's `sep.join(parts)`: every part occurs in the result. */
  function Join(parts: seq<string>, sep: string): (joined: string)
    ensures forall i :: 0 <= i < |parts| ==> Occurs(parts[i], joined)
  {
    if |parts| == 0 then ""
    else if |parts| == 1 then
      assert OccursAt(parts[0], parts[0], 0);
      parts[0]
    else
      var rest := Join(parts[1..], sep);
      var joined := parts[0] + sep + rest;
      assert joined[0..|parts[0]|] == parts[0];
      assert OccursAt(parts[0], joined, 0);
      assert forall i :: 1 <= i < |parts| ==> Occurs(parts[i], joined) by {
        forall i | 1 <= i < |parts| ensures Occurs(parts[i], joined) {
          assert parts[1..][i - 1] == parts[i];
          OccursInSuffix(parts[i], parts[0] + sep, rest);
        }
      }
      joined
  }

  // ---------------------------------------------------------------- events

  /** The validated data of an event request: `None` marks a field that the
      request does not carry (a partial update leaves it out). */
  datatype EventData = EventData(
    title: Option<string>,
    description: Option<string>,
    location: Option<string>,
    startTime: Option<int>,
    endTime: Option<int>,
    isPublic: Option<bool>)

  /** The data of a full create request. */
  function DataOf(d: EventDraft): EventData {
    EventData(Some(d.title), Some(d.description), Some(d.location),
              Some(d.startTime), Some(d.endTime), Some(d.isPublic))
  }

  /** `data.get(field, getattr(self.instance, field, None))`: the request's
      value, else the stored instance's, else `None` when there is no instance. */
  function Resolve(given: Option<int>, stored: Option<int>): Option<int> {
    if given.Some? then given else stored
  }

  function StoredStart(instance: Option<Event>): Option<int> {
    if instance.Some? then Some(instance.value.startTime) else None
  }

  function StoredEnd(instance: Option<Event>): Option<int> {
    if instance.Some? then Some(instance.value.endTime) else None
  }

  /** The time range the serializer checks, after the fallback to the instance. */
  function ResolvedStart(data: EventData, instance: Option<Event>): Option<int> {
    Resolve(data.startTime, StoredStart(instance))
  }

  function ResolvedEnd(data: EventData, instance: Option<Event>): Option<int> {
    Resolve(data.endTime, StoredEnd(instance))
  }

  /** EventSerializer.validate: refuses exactly when both resolved times are
      known and the end is not strictly after the start; otherwise returns the
      data unchanged. */
  function ValidateEvent(data: EventData, instance: Option<Event>): (r: Result<EventData, ValidationError>)
    ensures r.Failure? <==>
      ResolvedStart(data, instance).Some? && ResolvedEnd(data, instance).Some? &&
      ResolvedEnd(data, instance).value <= ResolvedStart(data, instance).value
    ensures r.Failure? ==> r.error == EndNotAfterStart
    ensures r.Success? ==> r.value == data
  {
    var start := Resolve(data.startTime, StoredStart(instance));
    var end := Resolve(data.endTime, StoredEnd(instance));
    if start.Some? && end.Some? && end.value <= start.value then Failure(EndNotAfterStart)
    else Success(data)
  }

  /** The update a model serializer performs: every field the data carries
      overwrites the instance's; the others are kept. */
  function ApplyUpdate(e: Event, data: EventData): (u: Event)
    ensures u.id == e.id && u.organizer == e.organizer && u.invitedUsers == e.invitedUsers
    ensures u.startTime == ResolvedStart(data, Some(e)).value
    ensures u.endTime == ResolvedEnd(data, Some(e)).value
  {
    e.(title := if data.title.Some? then data.title.value else e.title,
       description := if data.description.Some? then data.description.value else e.description,
       location := if data.location.Some? then data.location.value else e.location,
       startTime := if data.startTime.Some? then data.startTime.value else e.startTime,
       endTime := if data.endTime.Some? then data.endTime.value else e.endTime,
       isPublic := if data.isPublic.Some? then data.isPublic.value else e.isPublic)
  }

  /** A partial update that passes validation against the stored event leaves
      the updated event with its end strictly after its start, whichever of the
      two times the update carries. */
  lemma ValidatedUpdateKeepsTimeOrder(e: Event, data: EventData)
    requires ValidateEvent(data, Some(e)).Success?
    ensures ApplyUpdate(e, data).endTime > ApplyUpdate(e, data).startTime
  {
  }

  /** A partial update that carries only an end time is checked against the
      stored start time. */
  lemma PartialUpdateUsesStoredStart(e: Event, data: EventData)
    requires data.startTime.None? && data.endTime.Some?
    ensures ValidateEvent(data, Some(e)).Failure? <==> data.endTime.value <= e.startTime
  {
  }

  /** Without an instance, a request that leaves out either time is not checked. */
  lemma MissingTimeIsNotChecked(data: EventData)
    requires data.startTime.None? || data.endTime.None?
    ensures ValidateEvent(data, None) == Success(data)
  {
  }

  /** A create request passes validation exactly when its end is after its start. */
  lemma CreateValidation(d: EventDraft)
    ensures ValidateEvent(DataOf(d), None).Success? <==> d.endTime > d.startTime
  {
  }

  // ---------------------------------------------------------------- RSVP status

  /** The `(key, label)` pairs of the RSVP model's status choices. */
  type Choices = seq<(string, string)>

  /** `dict(STATUS_CHOICES)` has one entry per key. */
  predicate DistinctKeys(choices: Choices) {
    forall i, j :: 0 <= i < |choices| && 0 <= j < |choices| && choices[i].0 == choices[j].0 ==> i == j
  }

  predicate IsKey(choices: Choices, value: string) {
    exists i :: 0 <= i < |choices| && choices[i].0 == value
  }

  function Labels(choices: Choices): (labels: seq<string>)
    ensures |labels| == |choices|
    ensures forall i :: 0 <= i < |choices| ==> labels[i] == choices[i].1
  {
    if |choices| == 0 then [] else [choices[0].1] + Labels(choices[1..])
  }

  function LowerChar(c: char): char {
    if 'A' <= c <= 'Z' then (c as int - 'A' as int + 'a' as int) as char else c
  }

  /** `str.lower()` on the ASCII letters. */
  function Lower(s: string): (t: string)
    ensures |t| == |s|
    ensures forall i :: 0 <= i < |s| ==> t[i] == LowerChar(s[i])
  {
    if |s| == 0 then "" else [LowerChar(s[0])] + Lower(s[1..])
  }

  /** Position `i` holds the last label that lower-cases to `lowered`. */
  predicate LastMatch(choices: Choices, lowered: string, i: int) {
    && 0 <= i < |choices|
    && Lower(choices[i].1) == lowered
    && forall j :: i < j < |choices| ==> Lower(choices[j].1) != lowered
  }

  /** `{v.lower(): k for k, v in choices}[lowered]`: the comprehension keeps the
      last key whose label lower-cases to `lowered`, so the search runs from the end. */
  function ReverseLookup(choices: Choices, lowered: string): (k: Option<string>)
    ensures k.Some? ==> exists i :: LastMatch(choices, lowered, i) && choices[i].0 == k.value
    ensures k.None? <==> forall i :: 0 <= i < |choices| ==> Lower(choices[i].1) != lowered
  {
    if |choices| == 0 then None
    else
      var last := choices[|choices| - 1];
      if Lower(last.1) == lowered then Some(last.0)
      else
        var front := choices[..|choices| - 1];
        var k := ReverseLookup(front, lowered);
        assert forall i :: 0 <= i < |front| ==> front[i] == choices[i];
        if k.Some? then
          var i :| LastMatch(front, lowered, i) && front[i].0 == k.value;
          assert LastMatch(choices, lowered, i);
          k
        else
          k
  }

  /** When two labels lower-case alike, the later pair's key is the one returned. */
  lemma LastLabelWins()
    ensures ReverseLookup([("a", "X"), ("b", "x")], "x") == Some("b")
  {
  }

  /** RSVPSerializer.validate_status: an exact key is kept; anything else is
      matched case-insensitively against the labels and replaced by the key of
      the matching label; a value that matches nothing is refused. */
  function ValidateStatus(value: string, choices: Choices): (r: Result<string, ValidationError>)
    requires DistinctKeys(choices)
    ensures IsKey(choices, value) ==> r == Success(value)
    ensures !IsKey(choices, value) ==>
      (r.Success? <==> exists i :: 0 <= i < |choices| && Lower(choices[i].1) == Lower(value))
    ensures r.Success? && !IsKey(choices, value) ==>
      exists i :: LastMatch(choices, Lower(value), i) && choices[i].0 == r.value
    ensures r.Success? ==> IsKey(choices, r.value)
    ensures r.Failure? ==> r.error == UnknownStatus(Labels(choices))
  {
    if IsKey(choices, value) then Success(value)
    else match ReverseLookup(choices, Lower(value))
      case Some(k) => Success(k)
      case None => Failure(UnknownStatus(Labels(choices)))
  }

  /** Normalising a status twice gives the same result as normalising it once. */
  lemma StatusIdempotent(value: string, choices: Choices)
    requires DistinctKeys(choices)
    requires ValidateStatus(value, choices).Success?
    ensures ValidateStatus(ValidateStatus(value, choices).value, choices) == ValidateStatus(value, choices)
  {
  }

  /** Apart from exact keys, only the lower-cased form of a value matters. */
  lemma StatusCaseInsensitive(v1: string, v2: string, choices: Choices)
    requires DistinctKeys(choices)
    requires !IsKey(choices, v1) && !IsKey(choices, v2)
    requires Lower(v1) == Lower(v2)
    ensures ValidateStatus(v1, choices) == ValidateStatus(v2, choices)
  {
  }

  /** With a table whose `'going'` key is labelled `'Going'`, the value
      `'Going'` and its upper-case form normalise to `'going'`. */
  lemma GoingLabelAccepted()
    ensures ValidateStatus("Going", [("going", "Going"), ("maybe", "Maybe")]) == Success("going")
    ensures ValidateStatus("GOING", [("going", "Going"), ("maybe", "Maybe")]) == Success("going")
  {
    var choices := [("going", "Going"), ("maybe", "Maybe")];
    assert Lower("Going") == "going";
    assert Lower("GOING") == "going";
    assert Lower("Maybe") == "maybe";
    assert !IsKey(choices, "Going") && !IsKey(choices, "GOING");
  }

  // ---------------------------------------------------------------- rating

  /** ReviewSerializer.validate_rating: ratings 1 to 5 are kept, others refused. */
  function ValidateRating(value: int): (r: Result<int, ValidationError>)
    ensures r.Success? <==> 1 <= value <= 5
    ensures r.Success? ==> r.value == value
    ensures r.Failure? ==> r.error == RatingOutOfRange
  {
    if !(1 <= value <= 5) then Failure(RatingOutOfRange) else Success(value)
  }
}
