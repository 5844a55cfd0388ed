/** The audit envelope of one execution: a bounded list of lifecycle events kept
    in the order in which the host observed them (dispatch_audit.rs). */
module Audit {
  import opened Common

  const MAX_EVENTS: nat := 32

  /** `at` is wall-clock text; `observed` is the monotonic clock, never sent. */
  datatype Event = Event(sequence: nat, at: string, phase: string, observed: nat)

  /** An event measured by the cell itself and reported after it dissolved. */
  datatype CellEvent = CellEvent(phase: string, at: string, observed: nat)

  // ---------------------------------------------------------------- values

  /** `Audit::phase` on the list of events. */
  function Noted(events: seq<Event>, phase: string, at: string, now: nat): (r: seq<Event>)
    ensures events <= r && |r| <= |events| + 1
  {
    if events != [] && events[|events| - 1].phase == phase then events
    else if |events| < MAX_EVENTS then events + [Event(|events|, at, phase, now)]
    else events
  }

  /** The reported events that still fit, unnumbered. */
  function Fitting(events: seq<Event>, cell: seq<CellEvent>): seq<Event> {
    var room := Monus(MAX_EVENTS, |events|);
    var kept := cell[..Min(room, |cell|)];
    seq(|kept|, i requires 0 <= i < |kept| =>
      Event(|events| + i, kept[i].at, kept[i].phase, kept[i].observed))
  }

  ghost predicate Sorted(events: seq<Event>) {
    forall i, j :: 0 <= i < j < |events| ==> events[i].observed <= events[j].observed
  }

  ghost predicate Numbered(events: seq<Event>) {
    forall i :: 0 <= i < |events| ==> events[i].sequence == i
  }

  /** The invariant of every audit a dispatcher holds at time `now`. */
  ghost predicate Ordered(events: seq<Event>, now: nat) {
    && |events| <= MAX_EVENTS
    && Sorted(events)
    && Numbered(events)
    && forall e :: e in events ==> e.observed <= now
  }

  /** The place a stable sort gives `e` behind the sorted `events`. */
  function Insert(events: seq<Event>, e: Event): (r: seq<Event>)
    ensures |r| == |events| + 1
    ensures multiset(r) == multiset(events) + multiset{e}
  {
    if events == [] || events[|events| - 1].observed <= e.observed then events + [e]
    else
      var last := |events| - 1;
      assert events == events[..last] + [events[last]];
      Insert(events[..last], e) + [events[last]]
  }

  /** `sort_by_key(observed)`, the stable sort of the standard library. */
  function StableSort(events: seq<Event>): (r: seq<Event>)
    ensures |r| == |events|
    ensures multiset(r) == multiset(events)
  {
    if events == [] then []
    else
      var last := |events| - 1;
      assert events == events[..last] + [events[last]];
      Insert(StableSort(events[..last]), events[last])
  }

  function Renumbered(events: seq<Event>): seq<Event> {
    seq(|events|, i requires 0 <= i < |events| => events[i].(sequence := i))
  }

  /** `Audit::executed` on the list of events. */
  function Merged(events: seq<Event>, cell: seq<CellEvent>): seq<Event> {
    Renumbered(StableSort(events + Fitting(events, cell)))
  }

  /** The events observed at time `t`, in list order. */
  function At(events: seq<Event>, t: nat): seq<Event> {
    if events == [] then []
    else
      var last := |events| - 1;
      At(events[..last], t) + (if events[last].observed == t then [events[last]] else [])
  }

  // ---------------------------------------------------------------- lemmas

  lemma SortedAppend(events: seq<Event>, e: Event)
    requires Sorted(events)
    requires forall x :: x in events ==> x.observed <= e.observed
    ensures Sorted(events + [e])
  {
    var r := events + [e];
    forall i, j | 0 <= i < j < |r| ensures r[i].observed <= r[j].observed {
      assert events[i] in events;
    }
  }

  lemma SameMembers(a: seq<Event>, b: seq<Event>)
    requires multiset(a) == multiset(b)
    ensures forall x :: x in a <==> x in b
  {
    forall x ensures x in a <==> x in b {
      assert x in a <==> x in multiset(a);
      assert x in b <==> x in multiset(b);
    }
  }

  lemma {:induction false} InsertSorts(events: seq<Event>, e: Event)
    requires Sorted(events)
    ensures Sorted(Insert(events, e))
  {
    if events == [] {
    } else if events[|events| - 1].observed <= e.observed {
      forall x | x in events ensures x.observed <= e.observed {
        var i :| 0 <= i < |events| && events[i] == x;
      }
      SortedAppend(events, e);
    } else {
      var last := |events| - 1;
      var front := events[..last];
      InsertSorts(front, e);
      SameMembers(Insert(front, e), front + [e]);
      forall x | x in Insert(front, e) ensures x.observed <= events[last].observed {
        if x in front {
          var i :| 0 <= i < |front| && front[i] == x;
        }
      }
      SortedAppend(Insert(front, e), events[last]);
    }
  }

  lemma AtAppend(events: seq<Event>, e: Event, t: nat)
    ensures At(events + [e], t) == At(events, t) + (if e.observed == t then [e] else [])
  {
    assert (events + [e])[..|events|] == events;
  }

  /** Events of two instants may stand in either order. */
  lemma AtSwaps(front: seq<Event>, inserted: seq<Event>, e: Event, tail: Event, t: nat)
    requires At(inserted, t) == At(front + [e], t) && e.observed != tail.observed
    ensures At(inserted + [tail], t) == At(front + [tail] + [e], t)
  {
    AtAppend(front, e, t);
    AtAppend(inserted, tail, t);
    AtAppend(front, tail, t);
    AtAppend(front + [tail], e, t);
  }

  lemma {:induction false} InsertIsStable(events: seq<Event>, e: Event, t: nat)
    requires Sorted(events)
    ensures At(Insert(events, e), t) == At(events + [e], t)
  {
    if events == [] || events[|events| - 1].observed <= e.observed {
    } else {
      var last := |events| - 1;
      var front, tail := events[..last], events[last];
      assert events == front + [tail];
      InsertIsStable(front, e, t);
      AtSwaps(front, Insert(front, e), e, tail, t);
    }
  }

  /** The standard library's promise: sorted and a permutation ... */
  lemma {:induction false} StableSortSorts(events: seq<Event>)
    ensures Sorted(StableSort(events))
  {
    if events == [] {
    } else {
      var last := |events| - 1;
      StableSortSorts(events[..last]);
      InsertSorts(StableSort(events[..last]), events[last]);
    }
  }

  /** ... and stable. */
  lemma {:induction false} StableSortIsStable(events: seq<Event>, t: nat)
    ensures At(StableSort(events), t) == At(events, t)
  {
    if events == [] {
    } else {
      var last := |events| - 1;
      var rest := StableSort(events[..last]);
      StableSortIsStable(events[..last], t);
      StableSortSorts(events[..last]);
      InsertIsStable(rest, events[last], t);
      assert (rest + [events[last]])[..last] == rest;
    }
  }

  /** Noting a phase keeps the log ordered: the host clock never goes back. */
  lemma NotedKeepsOrder(events: seq<Event>, phase: string, at: string, before: nat, now: nat)
    requires Ordered(events, before) && before <= now
    ensures Ordered(Noted(events, phase, at, now), now)
    ensures |events| < MAX_EVENTS ==>
              var r := Noted(events, phase, at, now);
              r != [] && r[|r| - 1].phase == phase
    ensures Noted(events, phase, at, now) != events ==>
              && |events| < 32 && (events != [] ==> events[|events| - 1].phase != phase)
              && Noted(events, phase, at, now) == events + [Event(|events|, at, phase, now)]
  {
    var r := Noted(events, phase, at, now);
    forall i, j | 0 <= i < j < |r| ensures r[i].observed <= r[j].observed {
      assert i < |events| && events[i] in events;
    }
  }

  /** The same events in the same order: only their numbers may differ. */
  ghost predicate ButForNumbers(a: seq<Event>, b: seq<Event>) {
    |a| == |b| && forall i :: 0 <= i < |a| ==>
      a[i].at == b[i].at && a[i].phase == b[i].phase && a[i].observed == b[i].observed
  }

  /** Late cell events take their observed place, keep their relative order, and
      displace nothing: the result is a stable permutation of what was there and
      of the reported events that fit, differing only in the numbering. */
  lemma MergedIsAStablePermutation(events: seq<Event>, cell: seq<CellEvent>, now: nat)
    requires Ordered(events, now)
    requires forall c :: c in cell ==> c.observed <= now
    ensures Ordered(Merged(events, cell), now)
    ensures |Merged(events, cell)| == Min(32, |events| + |cell|)
    ensures var fit := Fitting(events, cell);
            && |fit| == Min(Monus(32, |events|), |cell|)
            && (forall i :: 0 <= i < |fit| ==>
                  fit[i].at == cell[i].at && fit[i].phase == cell[i].phase && fit[i].observed == cell[i].observed)
    ensures exists sorted ::
              && ButForNumbers(Merged(events, cell), sorted)
              && multiset(sorted) == multiset(events) + multiset(Fitting(events, cell))
              && forall t :: At(sorted, t) == At(events, t) + At(Fitting(events, cell), t)
  {
    var fit := Fitting(events, cell);
    var all := events + fit;
    var sorted := StableSort(all);
    StableSortSorts(all);
    forall t ensures At(sorted, t) == At(events, t) + At(fit, t) {
      StableSortIsStable(all, t);
      AtConcat(events, fit, t);
    }
    assert multiset(sorted) == multiset(all) == multiset(events) + multiset(fit);
    forall e | e in all ensures e.observed <= now {
      var k :| 0 <= k < |all| && all[k] == e;
      assert k >= |events| ==> cell[k - |events|] in cell;
    }
    SameMembers(sorted, all);
    RenumberedKeepsOrder(sorted, now);
    assert ButForNumbers(Merged(events, cell), sorted);
  }

  lemma RenumberedKeepsOrder(events: seq<Event>, now: nat)
    requires Sorted(events) && |events| <= MAX_EVENTS
    requires forall e :: e in events ==> e.observed <= now
    ensures Ordered(Renumbered(events), now)
  {
    var r := Renumbered(events);
    forall e | e in r ensures e.observed <= now {
      var i :| 0 <= i < |r| && r[i] == e;
      assert events[i] in events;
    }
  }

  lemma {:induction false} AtConcat(a: seq<Event>, b: seq<Event>, t: nat)
    ensures At(a + b, t) == At(a, t) + At(b, t)
  {
    if b == [] {
      assert a + b == a;
    } else {
      var last := |b| - 1;
      AtConcat(a, b[..last], t);
      assert (a + b)[..|a + b| - 1] == a + b[..last];
    }
  }

  lemma FittingGrows(events: seq<Event>, cell: seq<CellEvent>, i: nat)
    requires i < |cell|
    ensures var c := cell[i];
            var n := |events| + |Fitting(events, cell[..i])|;
            Fitting(events, cell[..i + 1]) == Fitting(events, cell[..i])
              + if n < MAX_EVENTS then [Event(n, c.at, c.phase, c.observed)] else []
  {
    var room := Monus(MAX_EVENTS, |events|);
    if i < room {
      assert cell[..i + 1][..i + 1] == cell[..i + 1] && cell[..i][..i] == cell[..i];
    } else {
      assert cell[..i + 1][..room] == cell[..i][..room];
    }
  }

  // ---------------------------------------------------------------- the object

  /** The event list as the dispatcher updates it in place. */
  class Log {
    var events: seq<Event>

    constructor (at: string, now: nat)
      ensures events == Noted([], "Admitting", at, now)
      ensures Ordered(events, now)
    {
      events := [Event(0, at, "Admitting", now)];
    }

    method Phase(phase: string, at: string, ghost before: nat, now: nat)
      requires Ordered(events, before) && before <= now
      modifies this
      ensures events == Noted(old(events), phase, at, now)
      ensures Ordered(events, now)
    {
      NotedKeepsOrder(events, phase, at, before, now);
      if |events| > 0 && events[|events| - 1].phase == phase {
        return;
      }
      if |events| < MAX_EVENTS {
        events := events + [Event(|events|, at, phase, now)];
      }
    }

    method Executed(cell: seq<CellEvent>, ghost now: nat)
      requires Ordered(events, now)
      requires forall c :: c in cell ==> c.observed <= now
      modifies this
      ensures events == Merged(old(events), cell)
      ensures Ordered(events, now)
    {
      ghost var was := events;
      for i := 0 to |cell|
        invariant events == was + Fitting(was, cell[..i])
      {
        FittingGrows(was, cell, i);
        if |events| < MAX_EVENTS {
          events := events + [Event(|events|, cell[i].at, cell[i].phase, cell[i].observed)];
        }
      }
      assert cell[..|cell|] == cell;
      events := StableSort(events);
      ghost var sorted := events;
      var n := |events|;
      for index := 0 to n
        invariant |events| == n == |sorted|
        invariant forall k :: 0 <= k < index ==> events[k] == sorted[k].(sequence := k)
        invariant forall k :: index <= k < n ==> events[k] == sorted[k]
      {
        events := events[index := events[index].(sequence := index)];
      }
      assert events == Renumbered(sorted);
      assert Ordered(events, now) by {
        MergedIsAStablePermutation(was, cell, now);
      }
    }
  }
}
