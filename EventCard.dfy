/**
 * One card of the events grid: which detail lines it shows, whether its
 * delete button spins, and what its buttons hand back to the page.
 */
module EventCard {
  import opened Common
  import Text
  import EventList

  /** What a card renders, as decisions rather than markup. */
  datatype CardView = CardView(
    busy: bool,
    editDisabled: bool,
    deleteDisabled: bool,
    showsLocation: bool,
    showsDescription: bool,
    showsPlaceholder: bool)

  /** What a click hands back to the page. */
  datatype Action = Edit(event: EventList.Event) | Delete(id: EventList.EventId)

  /** `isSubmitting && currentEventId === event.id` */
  predicate IsCurrentlySubmittingThisCard(event: EventList.Event, isSubmitting: bool, currentEventId: Option<EventList.EventId>)
    ensures IsCurrentlySubmittingThisCard(event, isSubmitting, currentEventId) ==> isSubmitting
    ensures IsCurrentlySubmittingThisCard(event, isSubmitting, currentEventId) <==>
      isSubmitting && currentEventId.Some? && currentEventId.value == event.id
  {
    isSubmitting && currentEventId == Some(event.id)
  }

  function Render(event: EventList.Event, isSubmitting: bool, currentEventId: Option<EventList.EventId>): (c: CardView)
    ensures c.busy <==> isSubmitting && currentEventId.Some? && currentEventId.value == event.id
    ensures c.editDisabled == isSubmitting && c.deleteDisabled == isSubmitting
    ensures c.showsLocation <==> event.location.Some? && event.location.value != ""
    ensures c.showsDescription <==> event.description.Some? && event.description.value != ""
    ensures c.showsPlaceholder <==> !c.showsLocation && !c.showsDescription
  {
    CardView(
      busy := IsCurrentlySubmittingThisCard(event, isSubmitting, currentEventId),
      editDisabled := isSubmitting,
      deleteDisabled := isSubmitting,
      showsLocation := Text.Truthy(event.location),
      showsDescription := Text.Truthy(event.description),
      showsPlaceholder := !Text.Truthy(event.location) && !Text.Truthy(event.description))
  }

  /** The Edit button passes the whole event. */
  function OnEditClick(event: EventList.Event): (a: Action)
    ensures a.Edit? && a.event == event
  {
    Edit(event)
  }

  /** The Delete button passes the event's id. */
  function OnDeleteClick(event: EventList.Event): (a: Action)
    ensures a.Delete? && a.id == event.id
  {
    Delete(event.id)
  }

  /** With no submission in flight no card is busy, and none has a disabled button. */
  lemma IdleCardsNotBusy(events: seq<EventList.Event>, currentEventId: Option<EventList.EventId>)
    ensures forall i :: 0 <= i < |events| ==>
      !Render(events[i], false, currentEventId).busy
      && !Render(events[i], false, currentEventId).editDisabled
      && !Render(events[i], false, currentEventId).deleteDisabled
  {
  }

  /** Among cards with distinct ids, at most one is busy. */
  lemma AtMostOneBusy(events: seq<EventList.Event>, isSubmitting: bool, currentEventId: Option<EventList.EventId>, i: nat, j: nat)
    requires i < |events| && j < |events|
    requires forall k, l :: 0 <= k < l < |events| ==> events[k].id != events[l].id
    requires Render(events[i], isSubmitting, currentEventId).busy
    requires Render(events[j], isSubmitting, currentEventId).busy
    ensures i == j
  {
  }
}
