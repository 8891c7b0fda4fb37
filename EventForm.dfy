/**
 * The add/edit form: four field states prefilled from the event being
 * edited, and a submit handler that validates them before handing the
 * page a payload.
 */
module EventForm {
  import opened Common
  import Text
  import EventList

  /** The form's four fields, and the payload it submits. */
  datatype Draft = Draft(name: string, date: string, location: string, description: string)

  const ValidationToast := Toast("Validation Error", "Event name and date are required.", Destructive)

  /**
   * `!(!eventName.trim() || !eventDate)`: the submit handler goes on only
   * when the name has a character that is not white space and a date is set.
   * Location and description play no part.
   */
  predicate Accepts(d: Draft)
    ensures Accepts(d) <==> (exists i :: 0 <= i < |d.name| && !Text.IsWhiteSpace(d.name[i])) && d.date != ""
  {
    Text.TrimEmptyIff(d.name);
    Text.Trim(d.name) != "" && d.date != ""
  }

  /** Location and description never decide whether a draft is accepted. */
  lemma AcceptsIgnoresOptionalFields(d: Draft, location: string, description: string)
    ensures Accepts(d) <==> Accepts(d.(location := location, description := description))
  {
  }

  /**
   * The fields the prefill effect writes for `event` (`event.x || ''`, or
   * all `''` with no event): the event's name and date, and each optional
   * field's value, which is `''` exactly when that field is missing or empty.
   */
  function PrefillFrom(event: Option<EventList.Event>): (d: Draft)
    ensures event.None? ==> d == Draft("", "", "", "")
    ensures event.Some? ==> d.name == event.value.name && d.date == event.value.date
    ensures event.Some? ==> (d.location == "" <==> !Text.Truthy(event.value.location))
    ensures event.Some? && Text.Truthy(event.value.location) ==> d.location == event.value.location.value
    ensures event.Some? ==> (d.description == "" <==> !Text.Truthy(event.value.description))
    ensures event.Some? && Text.Truthy(event.value.description) ==> d.description == event.value.description.value
  {
    match event
    case None => Draft("", "", "", "")
    // `name` and `date` are always strings, so `x || ''` is `x` itself.
    case Some(e) => Draft(e.name, e.date, Text.OrEmpty(e.location), Text.OrEmpty(e.description))
  }

  /** What `handleSubmit` passes to `onSubmit`, or `None` when it returns early. */
  function Submission(d: Draft): (r: Option<Draft>)
    ensures r.Some? <==> Accepts(d)
    ensures r.Some? ==> r.value == d
  {
    if Accepts(d) then Some(d) else None
  }

  /**
   * Opening the form on an event whose name is not blank and whose date is
   * set, and submitting it untouched, hands back that event's own values:
   * the location and description when present, `''` otherwise.
   */
  lemma PrefillSubmitRoundTrip(e: EventList.Event)
    requires exists i :: 0 <= i < |e.name| && !Text.IsWhiteSpace(e.name[i])
    requires e.date != ""
    ensures Submission(PrefillFrom(Some(e))).Some?
    ensures Submission(PrefillFrom(Some(e))).value.name == e.name
    ensures Submission(PrefillFrom(Some(e))).value.date == e.date
    ensures Submission(PrefillFrom(Some(e))).value.location == if Text.Truthy(e.location) then e.location.value else ""
    ensures Submission(PrefillFrom(Some(e))).value.description == if Text.Truthy(e.description) then e.description.value else ""
  {
    var i :| 0 <= i < |e.name| && !Text.IsWhiteSpace(e.name[i]);
    assert PrefillFrom(Some(e)).name[i] == e.name[i];
  }

  /** With no event the form is blank, and a blank form is never submitted. */
  lemma BlankFormRejected()
    ensures PrefillFrom(None) == Draft("", "", "", "")
    ensures Submission(PrefillFrom(None)) == None
  {
  }

  /** The footer buttons: both disabled, with a spinner, while a submission is in flight. */
  datatype Footer = Footer(cancelDisabled: bool, submitDisabled: bool, spinner: bool, caption: string)

  function FooterFor(editing: bool, isSubmitting: bool): (f: Footer)
    ensures f.cancelDisabled == isSubmitting && f.submitDisabled == isSubmitting && f.spinner == isSubmitting
    ensures f.caption in {"Saving...", "Save Changes", "Adding...", "Add Event"}
    ensures (f.caption == "Saving..." || f.caption == "Save Changes") <==> editing
    ensures (f.caption == "Saving..." || f.caption == "Adding...") <==> isSubmitting
  {
    var caption := if editing then (if isSubmitting then "Saving..." else "Save Changes")
                 else (if isSubmitting then "Adding..." else "Add Event");
    Footer(isSubmitting, isSubmitting, isSubmitting, caption)
  }

  /** The form's state: its four fields and the toasts it has shown. */
  class Form {
    var eventName: string
    var eventDate: string
    var eventLocation: string
    var eventDescription: string
    var toasts: seq<Toast>

    function Fields(): Draft
      reads this
    {
      Draft(eventName, eventDate, eventLocation, eventDescription)
    }

    constructor ()
      ensures Fields() == Draft("", "", "", "") && toasts == []
    {
      eventName, eventDate, eventLocation, eventDescription := "", "", "", "";
      toasts := [];
    }

    /** The effect that runs whenever the `event` prop changes. */
    method Prefill(event: Option<EventList.Event>)
      modifies this`eventName, this`eventDate, this`eventLocation, this`eventDescription
      ensures Fields() == PrefillFrom(event)
    {
      var d := PrefillFrom(event);
      eventName, eventDate, eventLocation, eventDescription := d.name, d.date, d.location, d.description;
    }

    method SetName(value: string)
      modifies this`eventName
      ensures eventName == value
    {
      eventName := value;
    }

    method SetDate(value: string)
      modifies this`eventDate
      ensures eventDate == value
    {
      eventDate := value;
    }

    method SetLocation(value: string)
      modifies this`eventLocation
      ensures eventLocation == value
    {
      eventLocation := value;
    }

    method SetDescription(value: string)
      modifies this`eventDescription
      ensures eventDescription == value
    {
      eventDescription := value;
    }

    /**
     * `handleSubmit`: returns the payload passed to `onSubmit` (the untrimmed
     * fields), or shows one validation toast and submits nothing.
     */
    method HandleSubmit() returns (submitted: Option<Draft>)
      modifies this`toasts
      ensures submitted == Submission(Fields())
      ensures submitted.Some? <==> Accepts(Fields())
      ensures toasts == old(toasts) + (if submitted.None? then [ValidationToast] else [])
    {
      var d := Fields();
      if Text.Trim(eventName) == "" || eventDate == "" {
        assert !Accepts(d);
        toasts := toasts + [ValidationToast];
        return None;
      }
      assert Accepts(d);
      submitted := Some(d);
    }
  }
}
