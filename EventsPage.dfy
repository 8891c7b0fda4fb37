/**
 * The events page: its state, the handlers that fetch, add, update and
 * delete events through the backend, the modal and search handlers, and
 * the choice of what the page body shows. Each backend call is a step
 * whose answer is a parameter; a mutation is split into the step that
 * raises the in-flight flags and the step that handles the answer.
 */
module EventsPage {
  import opened Common
  import opened EventList
  import Text
  import EventForm
  import EventCard
  import AuthContext

  /** The row `insert` receives: `{ ...formData, user_id: user.id }`. */
  datatype NewRow = NewRow(fields: EventForm.Draft, userId: string)

  /** The backend calls the page makes. */
  datatype Request =
    | SelectByOwner(userId: string)
    | InsertRow(row: NewRow)
    | UpdateById(id: EventId, patch: EventForm.Draft)
    | DeleteById(id: EventId)

  /**
   * The message of the TypeError that `user.id` raises inside the add
   * branch's `try` when there is no user.
   */
  const NullUserMessage := "Cannot read properties of null (reading 'id')"

  /** `currentEvent?.id || null`: no id for an add, nor for a falsy (zero) id. */
  function SubmittingIdFor(currentEvent: Option<Event>): (r: Option<EventId>)
    ensures r.Some? <==> currentEvent.Some? && currentEvent.value.id != 0
    ensures r.Some? ==> r.value == currentEvent.value.id
  {
    if currentEvent.Some? && currentEvent.value.id != 0 then Some(currentEvent.value.id) else None
  }

  /** A submission reaches the backend and succeeds. */
  predicate SubmitSucceeds(editing: Option<Event>, user: Option<AuthContext.User>, response: Result<Event>)
  {
    response.Ok? && (editing.Some? || user.Some?)
  }

  /**
   * The one toast a completed submission shows: destructive exactly on
   * failure, with a title naming the operation and the error's message.
   */
  function SubmitToast(editing: Option<Event>, user: Option<AuthContext.User>, response: Result<Event>): (t: Toast)
    ensures t.variant == Destructive <==> !SubmitSucceeds(editing, user, response)
    ensures t.title == "Success" <==> SubmitSucceeds(editing, user, response)
    ensures !SubmitSucceeds(editing, user, response) ==>
      t.title == (if editing.Some? then "Error updating event" else "Error adding event")
    ensures !SubmitSucceeds(editing, user, response) && response.Err? && (editing.Some? || user.Some?) ==>
      t.description == response.message
  {
    if SubmitSucceeds(editing, user, response) then
      Toast("Success", if editing.Some? then "Event updated successfully!" else "Event added successfully!", Default)
    else
      Toast(if editing.Some? then "Error updating event" else "Error adding event",
            if editing.None? && user.None? then NullUserMessage else response.message,
            Destructive)
  }

  /** The one toast a completed delete shows: destructive, with the error's message, exactly on failure. */
  function DeleteToast(response: Result<()>): (t: Toast)
    ensures t.variant == Destructive <==> response.Err?
    ensures response.Err? ==> t.title == "Error deleting event" && t.description == response.message
  {
    if response.Ok? then Toast("Success", "Event deleted successfully.", Default)
    else Toast("Error deleting event", response.message, Destructive)
  }

  /** What the page body shows under its header. */
  datatype Body = Spinner | NoEventsYet | NoEventsFound | Grid(events: seq<Event>)

  /**
   * The four conditional blocks of the page body: a spinner while loading;
   * otherwise "no events yet" for an empty result without a term, "no
   * events found" for an empty result with a term, or the grid.
   */
  function SelectBody(isLoading: bool, filtered: seq<Event>, searchTerm: string): (b: Body)
    ensures b.Spinner? <==> isLoading
    ensures b.NoEventsYet? <==> !isLoading && |filtered| == 0 && searchTerm == ""
    ensures b.NoEventsFound? <==> !isLoading && |filtered| == 0 && searchTerm != ""
    ensures b.Grid? <==> !isLoading && |filtered| > 0
    ensures b.Grid? ==> b.events == filtered
  {
    if isLoading then Spinner
    else if |filtered| == 0 && searchTerm == "" then NoEventsYet
    else if |filtered| == 0 then NoEventsFound
    else Grid(filtered)
  }

  /** "No events yet" is shown only when the page holds no events at all. */
  lemma NoEventsYetMeansEmpty(events: seq<Event>, searchTerm: string)
    requires SelectBody(false, Search(events, searchTerm), searchTerm).NoEventsYet?
    ensures events == []
  {
    SearchEmptyTerm(events);
  }

  /** "No events found" is shown only for a non-empty term that no event matches. */
  lemma NoEventsFoundMeansNoMatch(events: seq<Event>, searchTerm: string)
    requires SelectBody(false, Search(events, searchTerm), searchTerm).NoEventsFound?
    ensures searchTerm != ""
    ensures forall i :: 0 <= i < |events| ==> !Matches(events[i], searchTerm)
  {
    SearchSpec(events, searchTerm);
    forall i | 0 <= i < |events| ensures !Matches(events[i], searchTerm) {
      assert multiset(events)[events[i]] > 0;
    }
  }

  /** The page's state. */
  class Page {
    var events: seq<Event>
    var isModalOpen: bool
    var currentEvent: Option<Event>
    var searchTerm: string
    var isLoading: bool
    var isSubmitting: bool
    var submittingEventId: Option<EventId>
    var toasts: seq<Toast>

    /** No mutation is in flight. */
    predicate Idle()
      reads this
    {
      !isSubmitting && submittingEventId == None
    }

    /** The list is ascending by date. */
    ghost predicate Ordered()
      reads this
    {
      Sorted(events)
    }

    /**
     * `filteredEvents`: an order-preserving subsequence of the events, all
     * matching the term, and every event when the term is empty.
     */
    function FilteredEvents(): (r: seq<Event>)
      reads this
      ensures IsSubseq(r, events)
      ensures forall i :: 0 <= i < |r| ==> Matches(r[i], searchTerm)
      ensures searchTerm == "" ==> r == events
      ensures forall e :: multiset(r)[e] == if Matches(e, searchTerm) then multiset(events)[e] else 0
    {
      SearchSpec(events, searchTerm);
      SearchEmptyTerm(events);
      Search(events, searchTerm)
    }

    /**
     * What the page body shows now: the spinner while loading, otherwise
     * the grid of the filtered events when there are any, or the empty state
     * that the search term picks.
     */
    function CurrentBody(): (b: Body)
      reads this
      ensures b.Spinner? <==> isLoading
      ensures b.Grid? <==> !isLoading && |FilteredEvents()| > 0
      ensures b.Grid? ==> b.events == FilteredEvents()
      ensures b.NoEventsYet? <==> !isLoading && |FilteredEvents()| == 0 && searchTerm == ""
      ensures b.NoEventsYet? ==> events == []
      ensures b.NoEventsFound? <==> !isLoading && |FilteredEvents()| == 0 && searchTerm != ""
    {
      SelectBody(isLoading, FilteredEvents(), searchTerm)
    }

    /**
     * The cards of the grid, one per filtered event and in its order: a card
     * is busy exactly when a mutation for its own id is in flight.
     */
    function Cards(): (r: seq<EventCard.CardView>)
      reads this
      ensures |r| == |FilteredEvents()|
      ensures forall i :: 0 <= i < |r| ==>
        (r[i].busy <==> isSubmitting && submittingEventId == Some(FilteredEvents()[i].id))
      ensures forall i :: 0 <= i < |r| ==> r[i].editDisabled == isSubmitting && r[i].deleteDisabled == isSubmitting
    {
      var f, busy, id := FilteredEvents(), isSubmitting, submittingEventId;
      seq(|f|, i requires 0 <= i < |f| => EventCard.Render(f[i], busy, id))
    }

    constructor ()
      ensures events == [] && !isModalOpen && currentEvent == None && searchTerm == ""
      ensures isLoading && Idle() && toasts == []
      ensures Ordered()
    {
      events := [];
      isModalOpen := false;
      currentEvent := None;
      searchTerm := "";
      isLoading := true;
      isSubmitting := false;
      submittingEventId := None;
      toasts := [];
    }

    /** The synchronous start of `fetchEvents`: without a user it stops, else loading is set. */
    method FetchBegin(user: Option<AuthContext.User>) returns (req: Option<Request>)
      modifies this`isLoading
      ensures user.None? ==> req == None && isLoading == old(isLoading)
      ensures user.Some? ==> req == Some(SelectByOwner(user.value.id)) && isLoading
      ensures user.Some? ==> CurrentBody() == Spinner
    {
      if user.None? {
        return None;
      }
      isLoading := true;
      req := Some(SelectByOwner(user.value.id));
    }

    /**
     * The rest of `fetchEvents` once the backend answers: the list is
     * replaced by the rows (`[]` for null data) or kept on error, and the
     * loading flag is cleared either way.
     */
    method FetchComplete(response: Result<Option<seq<Event>>>)
      modifies this`isLoading, this`events, this`toasts
      ensures !isLoading
      ensures response.Ok? ==>
        events == (if response.value.Some? then response.value.value else []) && toasts == old(toasts)
      ensures response.Err? ==>
        events == old(events) && toasts == old(toasts) + [Toast("Error fetching events", response.message, Destructive)]
      ensures response.Ok? && response.value.Some? && Sorted(response.value.value) ==> Ordered()
    {
      match response {
        case Ok(data) =>
          events := if data.Some? then data.value else [];
        case Err(message) =>
          toasts := toasts + [Toast("Error fetching events", message, Destructive)];
      }
      isLoading := false;
    }

    /**
     * `fetchEvents`, the two steps run back to back: nothing at all without
     * a user; otherwise the list is replaced by the backend's rows (`[]` for
     * null data) or kept on error, and the loading flag is cleared either way.
     */
    method FetchEvents(user: Option<AuthContext.User>, response: Result<Option<seq<Event>>>)
      returns (req: Option<Request>)
      modifies this`isLoading, this`events, this`toasts
      ensures user.None? ==> req == None && isLoading == old(isLoading) && events == old(events) && toasts == old(toasts)
      ensures user.Some? ==> req == Some(SelectByOwner(user.value.id)) && !isLoading
      ensures user.Some? && response.Ok? ==>
        events == (if response.value.Some? then response.value.value else []) && toasts == old(toasts)
      ensures user.Some? && response.Err? ==>
        events == old(events) && toasts == old(toasts) + [Toast("Error fetching events", response.message, Destructive)]
      ensures user.Some? && response.Ok? && response.value.Some? && Sorted(response.value.value) ==> Ordered()
    {
      req := FetchBegin(user);
      if user.Some? {
        FetchComplete(response);
      }
    }

    /** The synchronous start of `handleFormSubmit`. */
    method SubmitBegin()
      modifies this`isSubmitting, this`submittingEventId
      ensures isSubmitting && submittingEventId == SubmittingIdFor(currentEvent)
    {
      isSubmitting := true;
      submittingEventId := SubmittingIdFor(currentEvent);
    }

    /**
     * The rest of `handleFormSubmit` once the backend answers. `editing` is
     * the `currentEvent` the handler captured when it started. On success
     * the list is updated or added to and the modal closes; on failure
     * the list, the modal and the edited event stay as they were. Either way
     * one toast is shown and the in-flight flags are cleared.
     */
    method SubmitComplete(editing: Option<Event>, formData: EventForm.Draft,
                          user: Option<AuthContext.User>, response: Result<Event>)
      returns (req: Option<Request>)
      modifies this`events, this`isModalOpen, this`currentEvent, this`toasts,
               this`isSubmitting, this`submittingEventId
      ensures Idle()
      ensures editing.Some? ==> req == Some(UpdateById(editing.value.id, formData))
      ensures editing.None? && user.Some? ==> req == Some(InsertRow(NewRow(formData, user.value.id)))
      ensures editing.None? && user.None? ==> req == None
      ensures SubmitSucceeds(editing, user, response) ==>
        events == (if editing.Some? then UpdateEvent(old(events), editing.value.id, response.value)
                   else AddEvent(old(events), response.value))
      ensures SubmitSucceeds(editing, user, response) ==> !isModalOpen && currentEvent == None && Ordered()
      ensures !SubmitSucceeds(editing, user, response) ==>
        events == old(events) && isModalOpen == old(isModalOpen) && currentEvent == old(currentEvent)
      ensures toasts == old(toasts) + [SubmitToast(editing, user, response)]
    {
      var succeeded := false;
      if editing.Some? {
        req := Some(UpdateById(editing.value.id, formData));
        if response.Ok? {
          events := UpdateEvent(events, editing.value.id, response.value);
          UpdateEventSpec(old(events), editing.value.id, response.value);
          succeeded := true;
        }
      } else if user.Some? {
        req := Some(InsertRow(NewRow(formData, user.value.id)));
        if response.Ok? {
          events := AddEvent(events, response.value);
          AddEventSpec(old(events), response.value);
          succeeded := true;
        }
      } else {
        req := None;
      }
      toasts := toasts + [SubmitToast(editing, user, response)];
      if succeeded {
        isModalOpen := false;
        currentEvent := None;
      }
      isSubmitting := false;
      submittingEventId := None;
    }

    /** `handleFormSubmit(formData)`, the two steps run back to back. */
    method HandleFormSubmit(formData: EventForm.Draft, user: Option<AuthContext.User>, response: Result<Event>)
      returns (req: Option<Request>)
      modifies this`events, this`isModalOpen, this`currentEvent, this`toasts,
               this`isSubmitting, this`submittingEventId
      ensures Idle()
      ensures old(currentEvent).Some? ==> req == Some(UpdateById(old(currentEvent).value.id, formData))
      ensures old(currentEvent).None? && user.Some? ==> req == Some(InsertRow(NewRow(formData, user.value.id)))
      ensures old(currentEvent).None? && user.None? ==> req == None
      ensures SubmitSucceeds(old(currentEvent), user, response) ==>
        events == (if old(currentEvent).Some? then UpdateEvent(old(events), old(currentEvent).value.id, response.value)
                   else AddEvent(old(events), response.value))
      ensures SubmitSucceeds(old(currentEvent), user, response) ==> !isModalOpen && currentEvent == None && Ordered()
      ensures !SubmitSucceeds(old(currentEvent), user, response) ==>
        events == old(events) && isModalOpen == old(isModalOpen) && currentEvent == old(currentEvent)
      ensures toasts == old(toasts) + [SubmitToast(old(currentEvent), user, response)]
    {
      var editing := currentEvent;
      SubmitBegin();
      req := SubmitComplete(editing, formData, user, response);
    }

    /** The synchronous start of `handleDeleteEvent(eventId)`. */
    method DeleteBegin(eventId: EventId)
      modifies this`isSubmitting, this`submittingEventId
      ensures isSubmitting && submittingEventId == Some(eventId)
    {
      isSubmitting := true;
      submittingEventId := Some(eventId);
    }

    /**
     * The rest of `handleDeleteEvent` once the backend answers: on success
     * every event with the id leaves the list, on failure the list stays as
     * it was; one toast, and the in-flight flags are cleared.
     */
    method DeleteComplete(eventId: EventId, response: Result<()>) returns (req: Request)
      modifies this`events, this`toasts, this`isSubmitting, this`submittingEventId
      ensures Idle()
      ensures req == DeleteById(eventId)
      ensures events == if response.Ok? then RemoveEvent(old(events), eventId) else old(events)
      ensures old(Ordered()) ==> Ordered()
      ensures toasts == old(toasts) + [DeleteToast(response)]
    {
      req := DeleteById(eventId);
      if response.Ok? {
        if Sorted(events) { RemoveKeepsSorted(events, eventId); }
        events := RemoveEvent(events, eventId);
      }
      toasts := toasts + [DeleteToast(response)];
      isSubmitting := false;
      submittingEventId := None;
    }

    /** `handleDeleteEvent(eventId)`, the two steps run back to back. */
    method HandleDeleteEvent(eventId: EventId, response: Result<()>) returns (req: Request)
      modifies this`events, this`toasts, this`isSubmitting, this`submittingEventId
      ensures Idle()
      ensures req == DeleteById(eventId)
      ensures events == if response.Ok? then RemoveEvent(old(events), eventId) else old(events)
      ensures old(Ordered()) ==> Ordered()
      ensures toasts == old(toasts) + [DeleteToast(response)]
    {
      DeleteBegin(eventId);
      req := DeleteComplete(eventId, response);
    }

    /** A card's Edit click, handed to `openEditModal`. */
    method EditClicked(card: Event)
      modifies this`currentEvent, this`isModalOpen
      ensures currentEvent == Some(card) && isModalOpen
    {
      var action := EventCard.OnEditClick(card);
      OpenEditModal(action.event);
    }

    /** A card's Delete click, handed to `handleDeleteEvent`. */
    method DeleteClicked(card: Event, response: Result<()>) returns (req: Request)
      modifies this`events, this`toasts, this`isSubmitting, this`submittingEventId
      ensures Idle()
      ensures req == DeleteById(card.id)
      ensures events == if response.Ok? then RemoveEvent(old(events), card.id) else old(events)
      ensures response.Ok? ==> forall i :: 0 <= i < |events| ==> events[i].id != card.id
      ensures toasts == old(toasts) + [DeleteToast(response)]
    {
      var action := EventCard.OnDeleteClick(card);
      req := HandleDeleteEvent(action.id, response);
    }

    method OpenEditModal(event: Event)
      modifies this`currentEvent, this`isModalOpen
      ensures currentEvent == Some(event) && isModalOpen
    {
      currentEvent := Some(event);
      isModalOpen := true;
    }

    method OpenAddModal()
      modifies this`currentEvent, this`isModalOpen
      ensures currentEvent == None && isModalOpen
    {
      currentEvent := None;
      isModalOpen := true;
    }

    method CloseModal()
      modifies this`currentEvent, this`isModalOpen
      ensures currentEvent == None && !isModalOpen
    {
      isModalOpen := false;
      currentEvent := None;
    }

    /** The dialog's `onOpenChange`: closing it also forgets the edited event. */
    method OnOpenChange(isOpen: bool)
      modifies this`currentEvent, this`isModalOpen
      ensures isModalOpen == isOpen
      ensures currentEvent == if isOpen then old(currentEvent) else None
    {
      isModalOpen := isOpen;
      if !isOpen {
        CloseModal();
      }
    }

    /** The search input's `onChange`. */
    method SetSearchTerm(term: string)
      modifies this`searchTerm
      ensures searchTerm == term
      ensures FilteredEvents() == Search(events, term)
    {
      searchTerm := term;
    }
  }

  /**
   * While a delete is in flight exactly the cards of the deleted id are busy,
   * and every card's buttons are disabled.
   */
  lemma BusyCardsDuringDelete(eventId: EventId)
    ensures forall e :: EventCard.Render(e, true, Some(eventId)).busy <==> e.id == eventId
    ensures forall e :: EventCard.Render(e, true, Some(eventId)).editDisabled
    ensures forall e :: EventCard.Render(e, true, Some(eventId)).deleteDisabled
  {
  }

  /**
   * Clicking a card's Delete starts a delete whose spinner shows on that
   * card and on no card with another id.
   */
  lemma DeleteClickBusiesThatCard(clicked: Event, e: Event)
    ensures EventCard.Render(e, true, Some(EventCard.OnDeleteClick(clicked).id)).busy <==> e.id == clicked.id
    ensures EventCard.Render(clicked, true, Some(EventCard.OnDeleteClick(clicked).id)).busy
  {
  }

  /**
   * Clicking a card's Edit and opening the modal on what it hands back
   * prefills the form with that event's name and date.
   */
  lemma EditClickPrefillsForm(clicked: Event)
    ensures EventForm.PrefillFrom(Some(EventCard.OnEditClick(clicked).event)).name == clicked.name
    ensures EventForm.PrefillFrom(Some(EventCard.OnEditClick(clicked).event)).date == clicked.date
  {
  }

  /**
   * A client run of the page: a failed delete keeps the list and shows an
   * error, a successful add binds the new row to the user and keeps the
   * list sorted, and the page is idle after both.
   */
  method DeleteFailsThenAddScenario(u: AuthContext.User, existing: seq<Event>, created: Event, draft: EventForm.Draft)
    requires Sorted(existing) && |existing| > 0
  {
    var page := new Page();
    var req0 := page.FetchEvents(Some(u), Ok(Some(existing)));
    assert page.events == existing && !page.isLoading && page.Ordered();
    page.DeleteBegin(existing[0].id);
    BusyCardsDuringDelete(existing[0].id);
    assert EventCard.Render(existing[0], page.isSubmitting, page.submittingEventId).busy;
    var req1 := page.DeleteComplete(existing[0].id, Err("network"));
    assert page.events == existing && page.Idle();
    assert page.toasts == [Toast("Error deleting event", "network", Destructive)];
    page.OpenAddModal();
    var req2 := page.HandleFormSubmit(draft, Some(u), Ok(created));
    assert req2 == Some(InsertRow(NewRow(draft, u.id)));
    assert page.Ordered() && !page.isModalOpen && page.Idle();
    AddEventSpec(existing, created);
    assert |page.events| == |existing| + 1;
  }
}
