/** Event lists stored by tick (`RawEvents`). */
module Event {
  import opened Primitives

  type RawEvent = Bin

  type RawEvents = map<nat, seq<RawEvent>>

  /** Appends, unless it is there already. */
  function Including(list: seq<RawEvent>, e: RawEvent): seq<RawEvent> {
    if e in list then list else list + [e]
  }

  /** Drops every occurrence. */
  function Excluding(list: seq<RawEvent>, e: RawEvent): seq<RawEvent> {
    if list == [] then []
    else if list[0] == e then Excluding(list[1..], e)
    else [list[0]] + Excluding(list[1..], e)
  }

  function ListAt(events: RawEvents, tick: nat): seq<RawEvent> {
    if tick in events then events[tick] else []
  }

  /** Replaces the list of one tick; a tick without events has no entry. */
  function WithList(events: RawEvents, tick: nat, list: seq<RawEvent>): RawEvents {
    if list == [] then events - {tick} else events[tick := list]
  }

  /** No entry without events, no event twice in a tick. */
  predicate Tidy(events: RawEvents) {
    && (forall t :: t in events ==> events[t] != [])
    && (forall t, i, j :: t in events && 0 <= i < j < |events[t]| ==> events[t][i] != events[t][j])
  }

  /** Adds an event unless it is a duplicate; says whether it was added. */
  method AddEvent(events: RawEvents, tick: nat, event: RawEvent) returns (updated: RawEvents, added: bool)
    ensures updated == WithList(events, tick, Including(ListAt(events, tick), event))
    ensures added == (event !in ListAt(events, tick))
    ensures updated == if added then events[tick := ListAt(events, tick) + [event]] else events
  {
    updated := events;
    if tick in events {
      if event !in events[tick] {
        updated := events[tick := events[tick] + [event]];
        return updated, true;
      }
      assert events[tick := events[tick]] == events;
      return events, false;
    }
    assert [] + [event] == [event];
    updated, added := events[tick := [event]], true;
  }

  /** Removes an event, and the tick with its last one; says whether it was there. */
  method RemoveEvent(events: RawEvents, tick: nat, event: RawEvent) returns (updated: RawEvents, removed: bool)
    ensures Tidy(events) ==> updated == WithList(events, tick, Excluding(ListAt(events, tick), event))
    ensures removed == (event in ListAt(events, tick))
  {
    updated, removed := events, false;
    if tick in events {
      var kept := [];
      for i := 0 to |events[tick]|
        invariant kept == Excluding(events[tick][..i], event)
        invariant |kept| < i <==> event in events[tick][..i]
        invariant |kept| <= i
      {
        ghost var list := events[tick];
        ExcludingSnoc(list[..i], list[i], event);
        assert list[..i + 1] == list[..i] + [list[i]];
        if events[tick][i] != event { kept := kept + [events[tick][i]]; }
      }
      assert events[tick][..|events[tick]|] == events[tick];
      removed := |kept| < |events[tick]|;
      updated := if kept == [] then events - {tick} else events[tick := kept];
    }
  }

  lemma {:induction false} ExcludingSnoc(list: seq<RawEvent>, d: RawEvent, e: RawEvent)
    ensures Excluding(list + [d], e) == Excluding(list, e) + (if d == e then [] else [d])
  {
    if list != [] {
      assert (list + [d])[1..] == list[1..] + [d];
      ExcludingSnoc(list[1..], d, e);
    }
  }

  lemma {:induction false} ExcludingAbsent(list: seq<RawEvent>, e: RawEvent)
    requires e !in list
    ensures Excluding(list, e) == list
  {
    if list != [] { ExcludingAbsent(list[1..], e); }
  }

  /** Taking out an event leaves what is before and behind it in order. */
  lemma {:induction false} ExcludingMiddle(before: seq<RawEvent>, e: RawEvent, behind: seq<RawEvent>)
    requires e !in before && e !in behind
    ensures Excluding(before + [e] + behind, e) == before + behind
  {
    var list := before + [e] + behind;
    if before == [] {
      assert list[1..] == behind && [] + behind == behind;
      ExcludingAbsent(behind, e);
    } else {
      assert list[1..] == before[1..] + [e] + behind;
      ExcludingMiddle(before[1..], e, behind);
      assert before + behind == [before[0]] + (before[1..] + behind);
    }
  }

  /** Removing a new event gives the old list back, order included. */
  lemma {:induction false} ListCancels(list: seq<RawEvent>, e: RawEvent)
    requires e !in list
    ensures Excluding(Including(list, e), e) == list
  {
    ExcludingSnoc(list, e, e);
    ExcludingAbsent(list, e);
  }

  lemma {:induction false} ExcludingMembers(list: seq<RawEvent>, e: RawEvent, x: RawEvent)
    ensures x in Excluding(list, e) <==> x in list && x != e
  {
    if list != [] { ExcludingMembers(list[1..], e, x); }
  }

  lemma {:induction false} ExcludingUnique(list: seq<RawEvent>, e: RawEvent)
    requires forall i, j :: 0 <= i < j < |list| ==> list[i] != list[j]
    ensures var r := Excluding(list, e); forall i, j :: 0 <= i < j < |r| ==> r[i] != r[j]
  {
    if list != [] {
      ExcludingUnique(list[1..], e);
      ExcludingMembers(list[1..], e, list[0]);
      var r := Excluding(list[1..], e);
      assert list[0] !in list[1..];
    }
  }

  lemma {:induction false} WithListTidy(events: RawEvents, tick: nat, e: RawEvent)
    requires Tidy(events)
    ensures Tidy(WithList(events, tick, Including(ListAt(events, tick), e)))
    ensures Tidy(WithList(events, tick, Excluding(ListAt(events, tick), e)))
  {
    ExcludingUnique(ListAt(events, tick), e);
  }

  // ---------------------------------------------------------------------------------------------
  // Several events at once
  // ---------------------------------------------------------------------------------------------

  /** Events by plot. */
  type PlotEvents = map<PlotID, RawEvents>

  function PlotListAt(events: PlotEvents, plot: PlotID, tick: nat): seq<RawEvent> {
    if plot in events then ListAt(events[plot], tick) else []
  }

  predicate TidyPlots(events: PlotEvents) {
    forall p {:trigger Tidy(events[p])} :: p in events ==> Tidy(events[p])
  }

  predicate Has(events: RawEvents, tick: nat, e: RawEvent) {
    e in ListAt(events, tick)
  }

  lemma {:induction false} IncludedHas(events: RawEvents, tick: nat, x: RawEvent, t: nat, e: RawEvent)
    ensures Has(WithList(events, tick, Including(ListAt(events, tick), x)), t, e) <==> Has(events, t, e) || (t == tick && e == x)
  {
  }

  lemma {:induction false} ExcludedHas(events: RawEvents, tick: nat, x: RawEvent, t: nat, e: RawEvent)
    ensures Has(WithList(events, tick, Excluding(ListAt(events, tick), x)), t, e) <==> Has(events, t, e) && !(t == tick && e == x)
  {
    ExcludingMembers(ListAt(events, tick), x, e);
  }

  /** Adds every event of the list that is not there yet. */
  method AddEvents(events: RawEvents, tick: nat, list: seq<RawEvent>) returns (updated: RawEvents)
    requires Tidy(events)
    ensures Tidy(updated)
    ensures forall t, e :: Has(updated, t, e) <==> Has(events, t, e) || (t == tick && e in list)
  {
    updated := events;
    for i := 0 to |list|
      invariant Tidy(updated)
      invariant forall t, e :: Has(updated, t, e) <==> Has(events, t, e) || (t == tick && e in list[..i])
    {
      ghost var was := updated;
      assert list[..i + 1] == list[..i] + [list[i]];
      WithListTidy(updated, tick, list[i]);
      var added, _ := AddEvent(updated, tick, list[i]);
      updated := added;
      forall t, e ensures Has(updated, t, e) <==> Has(was, t, e) || (t == tick && e == list[i]) {
        IncludedHas(was, tick, list[i], t, e);
      }
    }
    assert list[..|list|] == list;
  }

  /** Removes every event of the list. */
  method RemoveEvents(events: RawEvents, tick: nat, list: seq<RawEvent>) returns (updated: RawEvents)
    requires Tidy(events)
    ensures Tidy(updated)
    ensures forall t, e :: Has(updated, t, e) <==> Has(events, t, e) && !(t == tick && e in list)
  {
    updated := events;
    for i := 0 to |list|
      invariant Tidy(updated)
      invariant forall t, e :: Has(updated, t, e) <==> Has(events, t, e) && !(t == tick && e in list[..i])
    {
      ghost var was := updated;
      assert list[..i + 1] == list[..i] + [list[i]];
      WithListTidy(updated, tick, list[i]);
      var left, _ := RemoveEvent(updated, tick, list[i]);
      updated := left;
      forall t, e ensures Has(updated, t, e) <==> Has(was, t, e) && !(t == tick && e == list[i]) {
        ExcludedHas(was, tick, list[i], t, e);
      }
    }
    assert list[..|list|] == list;
  }

  predicate InRange(tick: nat, lo: nat, hi: Option<nat>) {
    lo <= tick && (hi.Some? ==> tick < hi.value)
  }

  /** Adds all of `extra` within a range of ticks. */
  method AddRange(events: RawEvents, extra: RawEvents, lo: nat, hi: Option<nat>) returns (updated: RawEvents)
    requires Tidy(events)
    ensures Tidy(updated)
    ensures forall t, e :: Has(updated, t, e) <==> Has(events, t, e) || (InRange(t, lo, hi) && Has(extra, t, e))
  {
    updated := events;
    var todo := set t | t in extra && InRange(t, lo, hi);
    while todo != {}
      invariant Tidy(updated) && todo <= extra.Keys && forall t :: t in todo ==> InRange(t, lo, hi)
      invariant forall t, e :: Has(updated, t, e) <==> Has(events, t, e) || (InRange(t, lo, hi) && t !in todo && Has(extra, t, e))
      decreases |todo|
    {
      var t :| t in todo;
      updated := AddEvents(updated, t, extra[t]);
      assert forall e :: Has(extra, t, e) <==> e in extra[t];
      todo := todo - {t};
    }
  }

  /** Removes all of `gone` within a range of ticks. */
  method RemoveRange(events: RawEvents, gone: RawEvents, lo: nat, hi: Option<nat>) returns (updated: RawEvents)
    requires Tidy(events)
    ensures Tidy(updated)
    ensures forall t, e :: Has(updated, t, e) <==> Has(events, t, e) && !(InRange(t, lo, hi) && Has(gone, t, e))
  {
    updated := events;
    var todo := set t | t in gone && InRange(t, lo, hi);
    while todo != {}
      invariant Tidy(updated) && todo <= gone.Keys && forall t :: t in todo ==> InRange(t, lo, hi)
      invariant forall t, e :: Has(updated, t, e) <==> Has(events, t, e) && !(InRange(t, lo, hi) && t !in todo && Has(gone, t, e))
      decreases |todo|
    {
      var t :| t in todo;
      updated := RemoveEvents(updated, t, gone[t]);
      assert forall e :: Has(gone, t, e) <==> e in gone[t];
      todo := todo - {t};
    }
  }
}
