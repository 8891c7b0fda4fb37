# Event planner: a verified model of the events page and session guard

The event planner is a React single-page app backed by Supabase. Signed-in
users keep a list of their events, each with a name, a date, and an optional
location and description. This project models the rules inside its handlers
and proves them in Dafny:

- the events page (`EventsPage` module):
  - its state and the handlers that fetch, add, update and delete events;
  - the modal and search handlers;
  - the choice between the spinner, the two empty states and the grid;
- the pure list transforms behind those handlers (`EventList`):
  - a stable sort by date;
  - append-then-sort on add, replace-then-sort on update;
  - filter on delete, and the case-insensitive search;
- the add/edit form (`EventForm`): prefill, validation, payload and footer;
- one event card (`EventCard`): the busy spinner, the disabled buttons and
  the detail lines;
- the session provider (`AuthContext`): `user`, `session` and `loading`,
  session resolution, login, signup and logout;
- the route guard (`ProtectedRoute`);
- the JavaScript string operations these rely on (`Text`), and generic
  sequence helpers (`Common`).

Every backend call is a parameter holding its outcome: `Ok(data)` or
`Err(message)`. The fetch, submit, delete, login, signup and logout
handlers set a flag before they await the backend, so each is split in two.
The `Begin` step raises the loading or in-flight flags. The `Complete` step
takes the backend's answer. A composite method named after the source
handler runs both back to back. Session resolution, at startup or on an
auth-state push, sets nothing before its answer arrives, so it is a single
step, `ResolveSession`. Each component's toasts are appended to a `toasts` log
kept in that component's state. State that the source keeps in `useState`
hooks is a Dafny `class` whose methods change only the fields they name.
The list transforms, the validation, the card and the guard are functions.

Four behaviours of the code that the model keeps as written:

- `fetchEvents` does not sort locally. It relies on the backend's
  `order('date')`. So `FetchEvents` promises a sorted list only when the rows
  it is given are sorted.
- The form rejects a name made only of white space, because it tests
  `eventName.trim()`. The prefill-and-submit round trip therefore needs a
  name with a character that is not white space, not just a non-empty name.
- `currentEvent?.id || null` maps a falsy id (0) to null, so
  `SubmittingIdFor` returns `None` for an event whose id is 0.
- An add with no signed-in user reaches `user.id` inside the handler's
  `try`. That raises a TypeError, which the `catch` turns into an
  "Error adding event" toast; no insert is sent.

## Model

| member | source | states |
|---|---|---|
| Text.TrimStart | src/components/events/EventForm.jsx:32 | the result is a suffix of the input; everything stripped is white space; the result does not start with white space |
| Text.TrimEnd | src/components/events/EventForm.jsx:32 | the result is a prefix of the input; everything stripped is white space; the result does not end with white space |
| Text.Trim | src/components/events/EventForm.jsx:32 | `trim()` is never longer than its input, leaves no white space at either end, and keeps a string with no white space at its ends unchanged |
| Text.TrimIsSlice | src/components/events/EventForm.jsx:32 | `trim()` is a slice of its input with only white space cut from before and after it |
| Text.TrimEmptyIff | src/components/events/EventForm.jsx:32 | `trim()` gives the empty string exactly when every character is white space |
| Text.ToLower | src/pages/EventsPage.jsx:117-121 | lower-casing keeps the length, turns each ASCII capital into its small letter, and keeps every other character |
| Text.ToLowerCaseInsensitive | src/pages/EventsPage.jsx:117-121 | strings that differ only in the case of ASCII letters lower-case to the same string |
| Text.ToLowerIdempotent | src/pages/EventsPage.jsx:117-121 | lower-casing twice equals lower-casing once |
| Text.Includes | src/pages/EventsPage.jsx:117-121 | `includes` never finds a needle longer than the haystack and always finds the empty needle |
| Text.IncludesIff | src/pages/EventsPage.jsx:117-121 | `includes` holds exactly when the needle occurs at some position of the haystack |
| Common.Filter | src/pages/EventsPage.jsx:107 | `filter` never lengthens the list and keeps only elements that satisfy the predicate; its subsequence and count properties are FilterIsSubseq and FilterCount |
| EventList.DateLeReflexive | src/pages/EventsPage.jsx:59 | every date is on or before itself |
| EventList.DateLeTotal | src/pages/EventsPage.jsx:59 | any two dates are ordered one way or the other |
| EventList.DateLeAntisymmetric | src/pages/EventsPage.jsx:59 | two dates each on or before the other are equal |
| EventList.DateLeTransitive | src/pages/EventsPage.jsx:59 | the date order is transitive |
| EventList.SortByDate | src/pages/EventsPage.jsx:68 | the sort keeps the length of the list |
| EventList.SortByDateStable | src/pages/EventsPage.jsx:68 | the sort returns a permutation that is ascending by date and keeps each date's events in their input order |
| EventList.StablySortedUnique | src/pages/EventsPage.jsx:68 | any list that is ascending by date and keeps each date's events in input order equals the insertion sort's result, so any stable sort agrees with it |
| EventList.SortSortedIdentity | src/pages/EventsPage.jsx:68 | sorting a list already ascending by date leaves it unchanged |
| EventList.AddEvent | src/pages/EventsPage.jsx:68 | append-then-sort grows the list by exactly one |
| EventList.AddEventSpec | src/pages/EventsPage.jsx:62-69 | add grows the list by one, is a permutation of old list plus the new record, is sorted, puts the new record after every other event of its date, and leaves other dates' events in order |
| EventList.AddToSorted | src/pages/EventsPage.jsx:68 | adding to a sorted list inserts the record at one position: after every event on or before its date, before every later event, with the rest unchanged |
| EventList.ReplaceById | src/pages/EventsPage.jsx:59 | the replacement map keeps the length |
| EventList.UpdateEvent | src/pages/EventsPage.jsx:59 | replace-then-sort keeps the length |
| EventList.UpdateEventSpec | src/pages/EventsPage.jsx:52-59 | update keeps the length, swaps every event with the edited id for the returned record, keeps all other events, and is a stable sort of that list |
| EventList.UpdateUniqueId | src/pages/EventsPage.jsx:59 | when exactly one event has the id, the result holds the old events minus that one, plus the returned record |
| EventList.UpdateAbsentId | src/pages/EventsPage.jsx:59 | an update for an id no event has only re-sorts, and leaves a sorted list as it was |
| EventList.SubseqSorted | src/pages/EventsPage.jsx:107 | any subsequence of a sorted list is sorted |
| EventList.RemoveEvent | src/pages/EventsPage.jsx:107 | the delete filter never lengthens the list and leaves no event with the id |
| EventList.RemoveKeepsSorted | src/pages/EventsPage.jsx:107 | deleting from a sorted list leaves it sorted |
| EventList.RemoveEventSpec | src/pages/EventsPage.jsx:100-107 | delete leaves no event with the id; keeps every other event, once per occurrence and in order; keeps a sorted list sorted; changes nothing when the id is absent |
| EventList.Matches | src/pages/EventsPage.jsx:117-121 | the empty term matches every event, and an event with no description or location matches exactly when its lower-cased name includes the lower-cased term |
| EventList.Search | src/pages/EventsPage.jsx:117-121 | search never lengthens the list and keeps only matching events |
| EventList.MatchesIff | src/pages/EventsPage.jsx:117-121 | an event matches exactly when the lower-cased term occurs in its lower-cased name, description or location |
| EventList.SearchSpec | src/pages/EventsPage.jsx:117-121 | search returns an order-preserving subsequence holding each matching event as often as the list does, and no other event |
| EventList.SearchEmptyTerm | src/pages/EventsPage.jsx:117-121 | the empty term returns the whole list |
| EventList.SearchIgnoresCase | src/pages/EventsPage.jsx:117-121 | a term and its lower-cased form give the same result |
| EventList.SearchCaseInsensitive | src/pages/EventsPage.jsx:117-121 | terms that differ only in the case of ASCII letters find the same events |
| EventList.RunSearch | src/pages/EventsPage.jsx:117-121 | searching "LAUNCH" among Launch, Wedding and Party returns Launch alone |
| EventForm.Accepts | src/components/events/EventForm.jsx:32-35 | a draft is accepted exactly when its name has a character that is not white space and its date is non-empty |
| EventForm.AcceptsIgnoresOptionalFields | src/components/events/EventForm.jsx:32 | location and description never change whether a draft is accepted |
| EventForm.PrefillFrom | src/components/events/EventForm.jsx:16-28 | with no event all four fields are `''`; otherwise name and date are the event's, and each optional field is its value, `''` exactly when missing or empty |
| EventForm.Submission | src/components/events/EventForm.jsx:30-42 | a payload is produced exactly for accepted drafts, and it is the four fields unchanged (the name untrimmed) |
| EventForm.PrefillSubmitRoundTrip | src/components/events/EventForm.jsx:16-41 | prefilling from an event with a usable name and date, then submitting, gives back its name and date, plus its location and description or `''` |
| EventForm.BlankFormRejected | src/components/events/EventForm.jsx:22-35 | with no event the fields are all `''` and that draft is rejected |
| EventForm.FooterFor | src/components/events/EventForm.jsx:82-85 | both buttons are disabled, with a spinner, exactly while submitting; the caption is one of the four labels, names an edit exactly when editing, and is a progress label ("Saving...", "Adding...") exactly while submitting |
| EventForm.Form.constructor | src/components/events/EventForm.jsx:10-13 | all four fields start as `''` with no toasts |
| EventForm.Form.Prefill | src/components/events/EventForm.jsx:16-28 | the fields become exactly the draft PrefillFrom gives for the event |
| EventForm.Form.SetName | src/components/events/EventForm.jsx:56 | the name field takes the typed value |
| EventForm.Form.SetDate | src/components/events/EventForm.jsx:64 | the date field takes the chosen value |
| EventForm.Form.SetLocation | src/components/events/EventForm.jsx:71 | the location field takes the typed value |
| EventForm.Form.SetDescription | src/components/events/EventForm.jsx:77 | the description field takes the typed value |
| EventForm.Form.HandleSubmit | src/components/events/EventForm.jsx:30-42 | returns the payload exactly when the fields are accepted; otherwise appends one validation toast and submits nothing |
| EventCard.IsCurrentlySubmittingThisCard | src/components/events/EventCard.jsx:13 | a card is submitting exactly when a submission is in flight and the in-flight id is the card's own |
| EventCard.Render | src/components/events/EventCard.jsx:13-49 | the card is busy exactly when submitting for its own id; both buttons are disabled exactly while submitting; location and description lines show exactly when present and non-empty; the placeholder shows exactly when neither does |
| EventCard.OnEditClick | src/components/events/EventCard.jsx:36 | Edit hands back the whole event; EditClicked and EditClickPrefillsForm tie it to the page and the form |
| EventCard.OnDeleteClick | src/components/events/EventCard.jsx:45 | Delete hands back the event's id; DeleteClicked and DeleteClickBusiesThatCard tie it to the page |
| EventCard.IdleCardsNotBusy | src/components/events/EventCard.jsx:13-47 | with no submission in flight no card is busy, and neither Edit nor Delete is disabled on any card |
| EventCard.AtMostOneBusy | src/components/events/EventCard.jsx:13 | among cards with distinct ids at most one is busy |
| AuthContext.UserOf | src/contexts/AuthContext.jsx:20 | `session?.user ?? null` is present exactly when the session is, and is then the session's user |
| AuthContext.AuthProvider.RendersChildren | src/contexts/AuthContext.jsx:85 | children render exactly when the published `loading` is false, and then, under the invariant, see a user exactly when there is a session |
| AuthContext.AuthProvider.constructor | src/contexts/AuthContext.jsx:11-13 | no user, no session, loading, children not rendered, and the user/session invariant holds |
| AuthContext.AuthProvider.ResolveSession | src/contexts/AuthContext.jsx:17-31 | the session becomes the given one, the user becomes its user or none, loading clears and children render; the invariant is established from any state |
| AuthContext.AuthProvider.BeginRequest | src/contexts/AuthContext.jsx:40 | loading is set and children are hidden |
| AuthContext.AuthProvider.CompleteLogin | src/contexts/AuthContext.jsx:41-48 | returns true exactly on success; loading clears; one toast, destructive on error; user and session untouched |
| AuthContext.AuthProvider.Login | src/contexts/AuthContext.jsx:39-49 | sends the sign-in request with the given credentials and ends as CompleteLogin does, keeping the invariant |
| AuthContext.AuthProvider.CompleteSignup | src/contexts/AuthContext.jsx:53-60 | returns true exactly on success; loading clears; one toast, destructive on error; user and session untouched |
| AuthContext.AuthProvider.Signup | src/contexts/AuthContext.jsx:51-61 | sends the sign-up request with the given credentials and ends as CompleteSignup does, keeping the invariant |
| AuthContext.AuthProvider.CompleteLogout | src/contexts/AuthContext.jsx:65-74 | success clears user and session, failure leaves both as they were; loading clears; one toast; the invariant is kept |
| AuthContext.AuthProvider.Logout | src/contexts/AuthContext.jsx:63-74 | sends the sign-out request and ends as CompleteLogout does |
| ProtectedRoute.Guard | src/components/ProtectedRoute.jsx:7-17 | loading gives the placeholder whatever the user; otherwise no user redirects to `/login` with replace, and a user renders the children |
| ProtectedRoute.GuardUnderProvider | src/components/ProtectedRoute.jsx:9-17 | under a provider that renders children, the guard never shows the placeholder and lets the route through exactly when there is a session |
| ProtectedRoute.GuardAfterResolution | src/components/ProtectedRoute.jsx:7-17 | after the provider resolves a session the guard renders the children exactly when there is one, else redirects |
| EventsPage.SubmittingIdFor | src/pages/EventsPage.jsx:49 | the in-flight id is the edited event's id, or none for an add or a falsy (zero) id |
| EventsPage.SubmitToast | src/pages/EventsPage.jsx:60-74 | the submit toast is destructive exactly on failure, is titled "Success" exactly on success, names the operation on failure, and carries the backend's message |
| EventsPage.DeleteToast | src/pages/EventsPage.jsx:108-110 | the delete toast is destructive exactly on failure, then titled "Error deleting event" with the backend's message |
| EventsPage.SelectBody | src/pages/EventsPage.jsx:172-202 | the spinner shows exactly while loading; otherwise exactly one of "no events yet" (empty, no term), "no events found" (empty, with a term) or the grid of the filtered events |
| EventsPage.NoEventsYetMeansEmpty | src/pages/EventsPage.jsx:178 | "no events yet" shows only when the page holds no events |
| EventsPage.NoEventsFoundMeansNoMatch | src/pages/EventsPage.jsx:190 | "no events found" shows only for a non-empty term that no event matches |
| EventsPage.Page.FilteredEvents | src/pages/EventsPage.jsx:117-121 | the filtered list is an order-preserving subsequence of the events that holds each matching event as often as the events do and no other, and all the events for the empty term |
| EventsPage.Page.CurrentBody | src/pages/EventsPage.jsx:172-202 | on the page's own state: the spinner exactly while loading; otherwise the grid of the filtered events when there are any, "no events yet" (then the page holds no events) or "no events found" as the term decides |
| EventsPage.Page.Cards | src/pages/EventsPage.jsx:210-217 | one card per filtered event; a card is busy exactly when a mutation for its own id is in flight; both its buttons are disabled exactly while one is |
| EventsPage.Page.constructor | src/pages/EventsPage.jsx:16-22 | no events, modal closed, no current event, empty term, loading, idle, no toasts |
| EventsPage.Page.FetchBegin | src/pages/EventsPage.jsx:25-26 | without a user nothing is sent and loading is untouched; with one the owner's rows are requested and the spinner shows |
| EventsPage.Page.FetchComplete | src/pages/EventsPage.jsx:28-40 | success replaces the list (`[]` for null data), an error keeps it and adds one destructive toast, and loading clears either way |
| EventsPage.Page.FetchEvents | src/pages/EventsPage.jsx:24-41 | no user changes nothing and sends nothing; with a user it selects that user's rows, success replaces the list (`[]` for null data), an error keeps it and adds one destructive toast, and loading clears |
| EventsPage.Page.SubmitBegin | src/pages/EventsPage.jsx:48-49 | submitting is set and the in-flight id is the edited event's id, or none |
| EventsPage.Page.SubmitComplete | src/pages/EventsPage.jsx:50-78 | sends an update for the edited id, or an insert bound to the user's id; success updates or adds and closes the modal; failure leaves list, modal and current event as they were; one toast; idle afterwards |
| EventsPage.Page.HandleFormSubmit | src/pages/EventsPage.jsx:47-79 | the whole submit, branching on the event being edited when it started, with the same outcomes as SubmitComplete |
| EventsPage.Page.DeleteBegin | src/pages/EventsPage.jsx:97-98 | submitting is set and the in-flight id is the deleted id |
| EventsPage.Page.DeleteComplete | src/pages/EventsPage.jsx:99-114 | sends the delete; success removes the id's events, failure keeps the list; a sorted list stays sorted; one toast; idle afterwards |
| EventsPage.Page.HandleDeleteEvent | src/pages/EventsPage.jsx:96-115 | the whole delete, with the same outcomes as DeleteComplete |
| EventsPage.Page.EditClicked | src/components/events/EventCard.jsx:36 | a card's Edit click makes that event current and opens the modal |
| EventsPage.Page.DeleteClicked | src/components/events/EventCard.jsx:45 | a card's Delete click deletes that card's id: on success no event with it remains, on failure the list stays; one toast; idle afterwards |
| EventsPage.Page.OpenEditModal | src/pages/EventsPage.jsx:81-84 | the event is current and the modal is open |
| EventsPage.Page.OpenAddModal | src/pages/EventsPage.jsx:86-89 | no event is current and the modal is open |
| EventsPage.Page.CloseModal | src/pages/EventsPage.jsx:91-94 | the modal is closed and no event is current |
| EventsPage.Page.OnOpenChange | src/pages/EventsPage.jsx:151-154 | the modal takes the given open state; closing also forgets the current event |
| EventsPage.Page.SetSearchTerm | src/pages/EventsPage.jsx:147 | the term is set, and the filtered list is the search of the events by it |
| EventsPage.BusyCardsDuringDelete | src/pages/EventsPage.jsx:210-217 | while a delete is in flight exactly the cards with the deleted id are busy, and every card's Edit and Delete buttons are disabled |
| EventsPage.DeleteClickBusiesThatCard | src/components/events/EventCard.jsx:13-45 | the delete a card's click starts shows its spinner on that card and on no card with another id |
| EventsPage.EditClickPrefillsForm | src/components/events/EventForm.jsx:16-19 | opening the form on what a card's Edit hands back prefills that event's name and date |

`AuthContext.LoginLogoutScenario` and `EventsPage.DeleteFailsThenAddScenario`
are worked runs: client methods whose asserts replay a session and a page
visit through the contracts above. They have no contract of their own.

## Left out

- Supabase calls (`select`, `insert`, `update`, `delete`, `getSession`,
  `signInWithPassword`, `signUp`, `signOut`): they are a network service.
  Each is a parameter holding its outcome, and the page methods return the
  request they would send.
- Overlapping async handlers and the order in which promises settle: that is
  concurrency. Each handler is an atomic step, or a begin step followed by a
  complete step.
- The `onAuthStateChange` subscription and its unsubscribe
  (src/contexts/AuthContext.jsx:26-36): that is effect plumbing. Only the
  state update its callback makes is kept, as `ResolveSession`.
- JSX, class names, icons, `framer-motion` animation and how toasts are
  displayed: that is presentation. The card, footer and page body are
  modelled as the decisions they render.
- `toLocaleDateString` (src/components/events/EventCard.jsx:25) depends on
  the locale and is not modelled.
- The sort comparator's `new Date(a.date) - new Date(b.date)` uses
  floating-point milliseconds. Dates are compared as strings instead. That
  matches chronological order for `YYYY-MM-DD` values with four-digit years;
  a later year such as "10000-01-01" would sort before "9999-12-31".
- Text.ToLower: lower-cases ASCII letters only, because full Unicode case
  mapping is a large table. Strings are sequences of Dafny characters, not
  UTF-16 code units.
- Routing (`Navigate`) beyond the guard's decision value.
- A single toast queue shared by the whole app: each component here keeps
  its own log.
- EventsPage.NullUserMessage is the V8 engine's wording for the TypeError;
  other engines word it differently.
- The empty-state markup text ("Click \"Add Event\" to start planning.",
  "Try a different search term.") is not modelled; only which block shows.
