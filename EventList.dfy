/**
 * The pure list transforms of the events page: the stable sort by date that
 * `Array.prototype.sort` performs, and the add, update, delete and search
 * expressions applied to the in-memory list of events.
 */
module EventList {
  import opened Common
  import Text

  type EventId = int

  /** A row of the `events` table as the backend returns it. */
  datatype Event = Event(
    id: EventId,
    userId: string,
    name: string,
    date: string,
    location: Option<string>,
    description: Option<string>)

  // ---------------------------------------------------------------------------
  // Dates

  /**
   * `a` is on or before `b`. Dates are `YYYY-MM-DD` strings from a date
   * input; for four-digit years, character-by-character comparison is
   * chronological.
   */
  predicate DateLe(a: string, b: string)
    decreases |a|
  {
    a == [] || (b != [] && (a[0] < b[0] || (a[0] == b[0] && DateLe(a[1..], b[1..]))))
  }

  lemma {:induction false} DateLeReflexive(a: string)
    ensures DateLe(a, a)
  {
    if a != [] { DateLeReflexive(a[1..]); }
  }

  lemma {:induction false} DateLeTotal(a: string, b: string)
    ensures DateLe(a, b) || DateLe(b, a)
  {
    if a != [] && b != [] && a[0] == b[0] { DateLeTotal(a[1..], b[1..]); }
  }

  lemma {:induction false} DateLeAntisymmetric(a: string, b: string)
    requires DateLe(a, b) && DateLe(b, a)
    ensures a == b
  {
    if a != [] && b != [] {
      DateLeAntisymmetric(a[1..], b[1..]);
      assert a == [a[0]] + a[1..] && b == [b[0]] + b[1..];
    }
  }

  lemma {:induction false} DateLeTransitive(a: string, b: string, c: string)
    requires DateLe(a, b) && DateLe(b, c)
    ensures DateLe(a, c)
  {
    if a != [] && a[0] == b[0] && b[0] == c[0] {
      DateLeTransitive(a[1..], b[1..], c[1..]);
    }
  }

  // ---------------------------------------------------------------------------
  // Stable sort by date

  /** Ascending by date. */
  ghost predicate Sorted(s: seq<Event>)
  {
    forall i, j :: 0 <= i < j < |s| ==> DateLe(s[i].date, s[j].date)
  }

  /** Every event of `s` is on or before `d`. */
  ghost predicate AllOnOrBefore(s: seq<Event>, d: string)
  {
    forall i :: 0 <= i < |s| ==> DateLe(s[i].date, d)
  }

  /** `[e]` if `e` falls on `d`, else `[]`. */
  function OnDate(e: Event, d: string): seq<Event>
  {
    if e.date == d then [e] else []
  }

  /** The events of `s` that fall on `d`, in their order in `s`. */
  function SameDate(s: seq<Event>, d: string): seq<Event>
  {
    if s == [] then [] else SameDate(s[..|s| - 1], d) + OnDate(s[|s| - 1], d)
  }

  /**
   * `r` is what a stable sort of `s` by date must return (section 23.1.3.30
   * of ECMA-262, 2023 edition): ascending by date, and the events of each
   * date in the order they have in `s`.
   */
  ghost predicate StablySorted(r: seq<Event>, s: seq<Event>)
  {
    Sorted(r) && forall d :: SameDate(r, d) == SameDate(s, d)
  }

  /** Insert `x` into `t` after every event on or before its date. */
  function Insert(t: seq<Event>, x: Event): (r: seq<Event>)
    ensures |r| == |t| + 1
  {
    if t == [] || DateLe(t[|t| - 1].date, x.date) then t + [x]
    else Insert(t[..|t| - 1], x) + [t[|t| - 1]]
  }

  /** `s.sort((a, b) => a.date - b.date)`, as an insertion sort. */
  function SortByDate(s: seq<Event>): (r: seq<Event>)
    ensures |r| == |s|
  {
    if s == [] then [] else Insert(SortByDate(s[..|s| - 1]), s[|s| - 1])
  }

  lemma SameDateSnoc(s: seq<Event>, x: Event, d: string)
    ensures SameDate(s + [x], d) == SameDate(s, d) + OnDate(x, d)
  {
    assert (s + [x])[..|s|] == s;
  }

  lemma {:induction false} InsertMultiset(t: seq<Event>, x: Event)
    ensures multiset(Insert(t, x)) == multiset(t) + multiset{x}
  {
    if t != [] && !DateLe(t[|t| - 1].date, x.date) {
      InsertMultiset(t[..|t| - 1], x);
      assert t == t[..|t| - 1] + [t[|t| - 1]];
    }
  }

  lemma {:induction false} InsertSameDate(t: seq<Event>, x: Event, d: string)
    ensures SameDate(Insert(t, x), d) == SameDate(t, d) + OnDate(x, d)
  {
    if t == [] || DateLe(t[|t| - 1].date, x.date) {
      SameDateSnoc(t, x, d);
    } else {
      var l := t[|t| - 1];
      var u := Insert(t[..|t| - 1], x);
      InsertSameDate(t[..|t| - 1], x, d);
      SameDateSnoc(u, l, d);
      DateLeReflexive(x.date);
      assert x.date == d ==> l.date != d;
    }
  }

  lemma {:induction false} InsertOnOrBefore(t: seq<Event>, x: Event, d: string)
    requires AllOnOrBefore(t, d) && DateLe(x.date, d)
    ensures AllOnOrBefore(Insert(t, x), d)
  {
    if t != [] && !DateLe(t[|t| - 1].date, x.date) {
      InsertOnOrBefore(t[..|t| - 1], x, d);
    }
  }

  lemma SortedPrefix(s: seq<Event>, n: nat)
    requires Sorted(s) && n <= |s|
    ensures Sorted(s[..n])
  {
    forall i, j | 0 <= i < j < n ensures DateLe(s[..n][i].date, s[..n][j].date) {
      assert s[..n][i] == s[i] && s[..n][j] == s[j];
    }
  }

  lemma {:induction false} InsertSorted(t: seq<Event>, x: Event)
    requires Sorted(t)
    ensures Sorted(Insert(t, x))
  {
    if t == [] || DateLe(t[|t| - 1].date, x.date) {
      forall i | 0 <= i < |t| ensures DateLe(t[i].date, x.date) {
        if i < |t| - 1 { DateLeTransitive(t[i].date, t[|t| - 1].date, x.date); }
      }
    } else {
      var l := t[|t| - 1];
      SortedPrefix(t, |t| - 1);
      InsertSorted(t[..|t| - 1], x);
      DateLeTotal(l.date, x.date);
      InsertOnOrBefore(t[..|t| - 1], x, l.date);
    }
  }

  /** The insertion sort is a stable sort by date that keeps every event. */
  lemma {:induction false} SortByDateStable(s: seq<Event>)
    ensures StablySorted(SortByDate(s), s)
    ensures multiset(SortByDate(s)) == multiset(s)
  {
    if s != [] {
      var init, last := s[..|s| - 1], s[|s| - 1];
      assert s == init + [last];
      SortByDateStable(init);
      InsertSorted(SortByDate(init), last);
      InsertMultiset(SortByDate(init), last);
      forall d ensures SameDate(SortByDate(s), d) == SameDate(s, d) {
        InsertSameDate(SortByDate(init), last, d);
      }
    }
  }

  lemma SameDateMembers(s: seq<Event>, d: string, e: Event)
    requires e in SameDate(s, d)
    ensures e in s && e.date == d
  {
    if s != [] {
      var init := s[..|s| - 1];
      if e in SameDate(init, d) {
        SameDateMembers(init, d, e);
        assert e in init;
      }
    }
  }

  /**
   * A stable sort by date has only one possible result: any list that is
   * sorted and keeps the order of each date's events is the insertion sort's.
   */
  lemma StablySortedUnique(r: seq<Event>, s: seq<Event>)
    requires StablySorted(r, s)
    ensures r == SortByDate(s)
  {
    SortByDateStable(s);
    SortedSameDatesEqual(r, SortByDate(s));
  }

  lemma {:induction false} SortedSameDatesEqual(a: seq<Event>, b: seq<Event>)
    requires Sorted(a) && Sorted(b)
    requires forall d :: SameDate(a, d) == SameDate(b, d)
    ensures a == b
    decreases |a|
  {
    if a != [] && b != [] {
      var a', la := a[..|a| - 1], a[|a| - 1];
      var b', lb := b[..|b| - 1], b[|b| - 1];
      LastIsLatest(a, lb);
      LastIsLatest(b, la);
      DateLeAntisymmetric(la.date, lb.date);
      var d := la.date;
      assert SameDate(a', d) + [la] == SameDate(b', d) + [lb];
      assert la == lb && SameDate(a', d) == SameDate(b', d) by {
        var x, y := SameDate(a', d) + [la], SameDate(b', d) + [lb];
        assert x[..|x| - 1] == SameDate(a', d) && y[..|y| - 1] == SameDate(b', d);
      }
      forall d' ensures SameDate(a', d') == SameDate(b', d') {
        if d' != d {
          assert SameDate(a, d') == SameDate(a', d') && SameDate(b, d') == SameDate(b', d');
        }
      }
      SortedSameDatesEqual(a', b');
      assert a == a' + [la] && b == b' + [lb];
    } else {
      assert a != [] ==> SameDate(a, a[|a| - 1].date) != [];
      assert b != [] ==> SameDate(b, b[|b| - 1].date) != [];
    }
  }

  /** A date with events in `s` is the date of some position of `s`. */
  lemma {:induction false} SameDateIndex(s: seq<Event>, d: string) returns (i: nat)
    requires SameDate(s, d) != []
    ensures i < |s| && s[i].date == d
  {
    var n := |s| - 1;
    if s[n].date == d {
      i := n;
    } else {
      assert SameDate(s[..n], d) != [];
      i := SameDateIndex(s[..n], d);
      assert s[..n][i] == s[i];
    }
  }

  /** The last event of a sorted list is on or after every event sharing a date with `e`. */
  lemma LastIsLatest(a: seq<Event>, e: Event)
    requires Sorted(a) && a != [] && SameDate(a, e.date) != []
    ensures DateLe(e.date, a[|a| - 1].date)
  {
    var i := SameDateIndex(a, e.date);
    var n := |a| - 1;
    if i == n {
      DateLeReflexive(e.date);
    } else {
      assert DateLe(a[i].date, a[n].date);
    }
  }

  /** Sorting a list that is already sorted leaves it unchanged. */
  lemma {:induction false} SortSortedIdentity(s: seq<Event>)
    requires Sorted(s)
    ensures SortByDate(s) == s
  {
    if s != [] {
      var init, last := s[..|s| - 1], s[|s| - 1];
      SortedPrefix(s, |s| - 1);
      SortSortedIdentity(init);
      assert init == [] || DateLe(init[|init| - 1].date, last.date) by {
        if init != [] { assert init[|init| - 1] == s[|s| - 2]; }
      }
      assert Insert(init, last) == init + [last];
      assert s == init + [last];
    }
  }

  /** In a sorted list, insertion lands after every event on or before the new date. */
  lemma {:induction false} InsertPosition(t: seq<Event>, x: Event) returns (p: nat)
    requires Sorted(t)
    ensures p <= |t| && Insert(t, x) == t[..p] + [x] + t[p..]
    ensures forall i :: 0 <= i < p ==> DateLe(t[i].date, x.date)
    ensures forall i :: p <= i < |t| ==> !DateLe(t[i].date, x.date)
  {
    if t == [] || DateLe(t[|t| - 1].date, x.date) {
      p := |t|;
      forall i | 0 <= i < |t| ensures DateLe(t[i].date, x.date) {
        if i < |t| - 1 { DateLeTransitive(t[i].date, t[|t| - 1].date, x.date); }
      }
    } else {
      var t' := t[..|t| - 1];
      SortedPrefix(t, |t| - 1);
      p := InsertPosition(t', x);
      assert t'[..p] == t[..p];
      assert t'[p..] + [t[|t| - 1]] == t[p..] by { assert t == t' + [t[|t| - 1]]; }
    }
  }

  // ---------------------------------------------------------------------------
  // Add, update, delete

  /** `[...prevEvents, data].sort(byDate)` */
  function AddEvent(events: seq<Event>, data: Event): (r: seq<Event>)
    ensures |r| == |events| + 1
  {
    SortByDate(events + [data])
  }

  /**
   * Adding keeps every event, adds the returned record once, sorts stably
   * by date, and puts the new record after every event of its own date.
   */
  lemma AddEventSpec(events: seq<Event>, data: Event)
    ensures |AddEvent(events, data)| == |events| + 1
    ensures Sorted(AddEvent(events, data))
    ensures multiset(AddEvent(events, data)) == multiset(events) + multiset{data}
    ensures SameDate(AddEvent(events, data), data.date) == SameDate(events, data.date) + [data]
    ensures forall d :: d != data.date ==> SameDate(AddEvent(events, data), d) == SameDate(events, d)
  {
    SortByDateStable(events + [data]);
    forall d ensures SameDate(events + [data], d) == SameDate(events, d) + OnDate(data, d) {
      SameDateSnoc(events, data, d);
    }
  }

  /** Adding to a sorted list splices the new record in after every event on or before its date. */
  lemma AddToSorted(events: seq<Event>, data: Event) returns (p: nat)
    requires Sorted(events)
    ensures p <= |events| && AddEvent(events, data) == events[..p] + [data] + events[p..]
    ensures forall i :: 0 <= i < p ==> DateLe(events[i].date, data.date)
    ensures forall i :: p <= i < |events| ==> !DateLe(events[i].date, data.date)
  {
    SortSortedIdentity(events);
    assert (events + [data])[..|events|] == events;
    p := InsertPosition(events, data);
  }

  /** `prevEvents.map(e => e.id === id ? data : e)` */
  function ReplaceById(events: seq<Event>, id: EventId, data: Event): (r: seq<Event>)
    ensures |r| == |events|
  {
    seq(|events|, i requires 0 <= i < |events| => if events[i].id == id then data else events[i])
  }

  /** `prevEvents.map(e => e.id === id ? data : e).sort(byDate)` */
  function UpdateEvent(events: seq<Event>, id: EventId, data: Event): (r: seq<Event>)
    ensures |r| == |events|
  {
    SortByDate(ReplaceById(events, id, data))
  }

  /**
   * Updating keeps the length, replaces each event with the edited id by the
   * returned record, keeps every other event, and sorts stably by date.
   */
  lemma UpdateEventSpec(events: seq<Event>, id: EventId, data: Event)
    ensures |UpdateEvent(events, id, data)| == |events|
    ensures StablySorted(UpdateEvent(events, id, data), ReplaceById(events, id, data))
    ensures multiset(UpdateEvent(events, id, data)) == multiset(ReplaceById(events, id, data))
    ensures forall i :: 0 <= i < |events| ==>
      ReplaceById(events, id, data)[i] == if events[i].id == id then data else events[i]
  {
    SortByDateStable(ReplaceById(events, id, data));
  }

  /** With the edited id held by exactly one event, that event is swapped for the returned record. */
  lemma UpdateUniqueId(events: seq<Event>, id: EventId, data: Event, j: nat)
    requires j < |events| && events[j].id == id
    requires forall i :: 0 <= i < |events| && i != j ==> events[i].id != id
    ensures multiset(UpdateEvent(events, id, data))
         == multiset(events) - multiset{events[j]} + multiset{data}
  {
    SortByDateStable(ReplaceById(events, id, data));
    assert ReplaceById(events, id, data) == events[j := data];
  }

  /** An update for an id no event has only re-sorts; a sorted list stays as it was. */
  lemma UpdateAbsentId(events: seq<Event>, id: EventId, data: Event)
    requires forall i :: 0 <= i < |events| ==> events[i].id != id
    ensures UpdateEvent(events, id, data) == SortByDate(events)
    ensures Sorted(events) ==> UpdateEvent(events, id, data) == events
  {
    assert ReplaceById(events, id, data) == events;
    if Sorted(events) { SortSortedIdentity(events); }
  }

  /** `prevEvents.filter(e => e.id !== id)` */
  function RemoveEvent(events: seq<Event>, id: EventId): (r: seq<Event>)
    ensures |r| <= |events|
    ensures forall i :: 0 <= i < |r| ==> r[i].id != id
  {
    Filter(events, (e: Event) => e.id != id)
  }

  /** Any subsequence of a sorted list is sorted. */
  lemma {:induction false} SubseqSorted(a: seq<Event>, b: seq<Event>)
    requires IsSubseq(a, b) && Sorted(b)
    ensures Sorted(a)
    decreases |b|
  {
    if b != [] {
      if a != [] && a[0] == b[0] && IsSubseq(a[1..], b[1..]) {
        SubseqSorted(a[1..], b[1..]);
        forall j | 0 < j < |a| ensures DateLe(a[0].date, a[j].date) {
          assert a[j] in a[1..];
          SubseqMembers(a[1..], b[1..], a[j]);
        }
      } else {
        SubseqSorted(a, b[1..]);
      }
    }
  }

  /** Deleting from a sorted list leaves it sorted. */
  lemma RemoveKeepsSorted(events: seq<Event>, id: EventId)
    requires Sorted(events)
    ensures Sorted(RemoveEvent(events, id))
  {
    FilterIsSubseq(events, (e: Event) => e.id != id);
    SubseqSorted(RemoveEvent(events, id), events);
  }

  /**
   * Deleting leaves no event with the id, keeps every other event with its
   * multiplicity and relative order, keeps a sorted list sorted, and changes
   * nothing when no event has the id.
   */
  lemma RemoveEventSpec(events: seq<Event>, id: EventId)
    ensures forall i :: 0 <= i < |RemoveEvent(events, id)| ==> RemoveEvent(events, id)[i].id != id
    ensures IsSubseq(RemoveEvent(events, id), events)
    ensures forall e :: multiset(RemoveEvent(events, id))[e] == if e.id == id then 0 else multiset(events)[e]
    ensures Sorted(events) ==> Sorted(RemoveEvent(events, id))
    ensures (forall i :: 0 <= i < |events| ==> events[i].id != id) ==> RemoveEvent(events, id) == events
  {
    var p := (e: Event) => e.id != id;
    FilterIsSubseq(events, p);
    forall e ensures multiset(RemoveEvent(events, id))[e] == if e.id == id then 0 else multiset(events)[e] {
      FilterCount(events, p, e);
    }
    if Sorted(events) { RemoveKeepsSorted(events, id); }
    if forall i :: 0 <= i < |events| ==> events[i].id != id { FilterAll(events, p); }
  }

  // ---------------------------------------------------------------------------
  // Search

  /**
   * The search predicate: the lower-cased term occurs in the lower-cased
   * name, or in a present (truthy) description or location.
   */
  predicate Matches(e: Event, term: string)
    ensures term == "" ==> Matches(e, term)
    ensures !Text.Truthy(e.description) && !Text.Truthy(e.location) ==>
      (Matches(e, term) <==> Text.Includes(Text.ToLower(e.name), Text.ToLower(term)))
  {
    var t := Text.ToLower(term);
    Text.Includes(Text.ToLower(e.name), t)
    || (Text.Truthy(e.description) && Text.Includes(Text.ToLower(e.description.value), t))
    || (Text.Truthy(e.location) && Text.Includes(Text.ToLower(e.location.value), t))
  }

  /** `events.filter(event => Matches(event, searchTerm))` */
  function Search(events: seq<Event>, term: string): (r: seq<Event>)
    ensures |r| <= |events|
    ensures forall i :: 0 <= i < |r| ==> Matches(r[i], term)
  {
    Filter(events, (e: Event) => Matches(e, term))
  }

  /** A field of `e` the search looks at, lower-cased, contains the lower-cased term. */
  ghost predicate MentionedIn(e: Event, term: string)
  {
    var t := Text.ToLower(term);
    (exists i :: Text.OccursAt(Text.ToLower(e.name), t, i))
    || (e.description.Some? && exists i :: Text.OccursAt(Text.ToLower(e.description.value), t, i))
    || (e.location.Some? && exists i :: Text.OccursAt(Text.ToLower(e.location.value), t, i))
  }

  /** The search predicate holds exactly when the term occurs in one of the three fields. */
  lemma MatchesIff(e: Event, term: string)
    ensures Matches(e, term) <==> MentionedIn(e, term)
  {
    var t := Text.ToLower(term);
    Text.IncludesIff(Text.ToLower(e.name), t);
    if e.description.Some? {
      Text.IncludesIff(Text.ToLower(e.description.value), t);
    }
    if e.location.Some? {
      Text.IncludesIff(Text.ToLower(e.location.value), t);
    }
  }

  /**
   * The search returns an order-preserving subsequence of the events that
   * keeps exactly the matching ones, each with its multiplicity.
   */
  lemma SearchSpec(events: seq<Event>, term: string)
    ensures IsSubseq(Search(events, term), events)
    ensures forall e :: multiset(Search(events, term))[e] == if Matches(e, term) then multiset(events)[e] else 0
  {
    var p := (e: Event) => Matches(e, term);
    FilterIsSubseq(events, p);
    forall e ensures multiset(Search(events, term))[e] == if Matches(e, term) then multiset(events)[e] else 0 {
      FilterCount(events, p, e);
    }
  }

  /** The empty search term returns the whole list. */
  lemma SearchEmptyTerm(events: seq<Event>)
    ensures Search(events, "") == events
  {
    FilterAll(events, (e: Event) => Matches(e, ""));
  }

  /** Searching ignores the case of the term's ASCII letters. */
  lemma SearchIgnoresCase(events: seq<Event>, term: string)
    ensures Search(events, term) == Search(events, Text.ToLower(term))
  {
    Text.ToLowerIdempotent(term);
    FilterCongruent(events, (e: Event) => Matches(e, term), (e: Event) => Matches(e, Text.ToLower(term)));
  }

  /** Terms that differ only in the case of ASCII letters find the same events. */
  lemma SearchCaseInsensitive(events: seq<Event>, t1: string, t2: string)
    requires Text.SameUpToCase(t1, t2)
    ensures Search(events, t1) == Search(events, t2)
  {
    assert Text.ToLower(t1) == Text.ToLower(t2);
    FilterCongruent(events, (e: Event) => Matches(e, t1), (e: Event) => Matches(e, t2));
  }

  // ---------------------------------------------------------------------------
  // A worked search over three events.

  function Launch(): Event { Event(2, "u1", "Launch", "2024-05-01", None, None) }
  function Wedding(): Event { Event(1, "u1", "Wedding", "2024-06-01", None, None) }
  function Party(): Event { Event(3, "u1", "Party", "2024-07-01", None, None) }

  /** Searching for "LAUNCH" finds Launch alone. */
  lemma RunSearch()
    ensures Search([Launch(), Wedding(), Party()], "LAUNCH") == [Launch()]
  {
    RunLowerNames();
    assert Matches(Launch(), "LAUNCH") by { assert "launch"[..6] == "launch"; }
    assert !Matches(Wedding(), "LAUNCH") by { RunWeddingLacksLaunch(); }
    assert !Matches(Party(), "LAUNCH");
    var s := [Launch(), Wedding(), Party()];
    assert s[1..] == [Wedding(), Party()] && s[1..][1..] == [Party()] && s[1..][1..][1..] == [];
  }

  lemma RunLowerNames()
    ensures Text.ToLower("LAUNCH") == "launch" && Text.ToLower("Launch") == "launch"
    ensures Text.ToLower("Wedding") == "wedding" && Text.ToLower("Party") == "party"
  {
  }

  lemma RunWeddingLacksLaunch()
    ensures !Text.Includes("wedding", "launch")
  {
    assert "wedding"[..6] != "launch" by { assert "wedding"[..6][0] == 'w'; }
    assert "wedding"[1..] == "edding";
    assert "edding" != "launch" by { assert "edding"[0] == 'e'; }
    assert "edding"[1..] == "dding";
  }
}
