/** Lists of events: their ids, and what is left when some ids are removed. */
module EventLists {
  import opened Text
  import opened Events

  function Ids(events: seq<Event>): set<string> {
    set i | 0 <= i < |events| :: events[i].id
  }

  ghost predicate UniqueIds(events: seq<Event>) {
    forall i, j :: 0 <= i < j < |events| ==> events[i].id != events[j].id
  }

  lemma IdsSnoc(events: seq<Event>, e: Event)
    ensures Ids(events + [e]) == Ids(events) + {e.id}
  {
    var all := events + [e];
    forall id | id in Ids(events) + {e.id} ensures id in Ids(all) {
      if id != e.id {
        var i :| 0 <= i < |events| && events[i].id == id;
        assert all[i].id == id;
      } else {
        assert all[|events|].id == id;
      }
    }
  }

  lemma UniqueSnoc(events: seq<Event>, e: Event)
    requires UniqueIds(events) && e.id !in Ids(events)
    ensures UniqueIds(events + [e])
  {
    forall i | 0 <= i < |events| ensures events[i].id != e.id {
      assert events[i].id in Ids(events);
    }
  }

  /** The last of some unique events is not among those before it. */
  lemma UniqueLast(events: seq<Event>)
    requires UniqueIds(events) && events != []
    ensures UniqueIds(events[..|events| - 1]) && events[|events| - 1].id !in Ids(events[..|events| - 1])
    ensures events == events[..|events| - 1] + [events[|events| - 1]]
  {
  }

  lemma UniqueEvent(events: seq<Event>, a: Event, b: Event)
    requires UniqueIds(events) && a in events && b in events && a.id == b.id
    ensures a == b
  {
    var i :| 0 <= i < |events| && events[i] == a;
    var j :| 0 <= j < |events| && events[j] == b;
  }

  // ----- removing ids -----

  function Without(events: seq<Event>, gone: set<string>): (r: seq<Event>)
    ensures forall i :: 0 <= i < |r| ==> r[i] in events && r[i].id !in gone
    ensures forall i :: 0 <= i < |events| && events[i].id !in gone ==> events[i] in r
    ensures |r| <= |events|
  {
    if events == [] then []
    else
      var rest := Without(events[..|events| - 1], gone);
      var last := events[|events| - 1];
      assert events == events[..|events| - 1] + [last];
      if last.id in gone then rest else rest + [last]
  }

  lemma WithoutSnoc(events: seq<Event>, e: Event, gone: set<string>)
    ensures Without(events + [e], gone) == if e.id in gone then Without(events, gone) else Without(events, gone) + [e]
  {
    assert (events + [e])[..|events|] == events;
  }

  lemma {:induction false} WithoutNothing(events: seq<Event>, gone: set<string>)
    requires Ids(events) !! gone
    ensures Without(events, gone) == events
  {
    if events != [] {
      var prefix, last := events[..|events| - 1], events[|events| - 1];
      assert prefix + [last] == events;
      IdsSnoc(prefix, last);
      WithoutNothing(prefix, gone);
    }
  }

  lemma {:induction false} WithoutTwice(events: seq<Event>, a: set<string>, b: set<string>)
    ensures Without(Without(events, a), b) == Without(events, a + b)
  {
    if events != [] {
      var prefix, last := events[..|events| - 1], events[|events| - 1];
      WithoutTwice(prefix, a, b);
      if last.id !in a {
        WithoutSnoc(Without(prefix, a), last, b);
      }
    }
  }

  lemma WithoutShrinks(events: seq<Event>, gone: set<string>)
    ensures Ids(Without(events, gone)) <= Ids(events)
  {
    var r := Without(events, gone);
    forall i | 0 <= i < |r| ensures r[i].id in Ids(events) {
      assert r[i] in events;
    }
  }

  lemma {:induction false} WithoutUnique(events: seq<Event>, gone: set<string>)
    requires UniqueIds(events)
    ensures UniqueIds(Without(events, gone))
    decreases |events|
  {
    if events != [] {
      var prefix, e := events[..|events| - 1], events[|events| - 1];
      UniqueLast(events);
      WithoutUnique(prefix, gone);
      WithoutShrinks(prefix, gone);
      if e.id !in gone {
        UniqueSnoc(Without(prefix, gone), e);
      }
    }
  }

  // ----- how often an id occurs -----

  function Count(events: seq<Event>, id: string): nat {
    if events == [] then 0 else Count(events[..|events| - 1], id) + if events[|events| - 1].id == id then 1 else 0
  }

  lemma CountSnoc(events: seq<Event>, e: Event, id: string)
    ensures Count(events + [e], id) == Count(events, id) + if e.id == id then 1 else 0
  {
    assert (events + [e])[..|events|] == events;
  }

  lemma {:induction false} CountIds(events: seq<Event>, id: string)
    ensures Count(events, id) > 0 <==> id in Ids(events)
    decreases |events|
  {
    if events != [] {
      var prefix, last := events[..|events| - 1], events[|events| - 1];
      assert prefix + [last] == events;
      IdsSnoc(prefix, last);
      CountIds(prefix, id);
    }
  }

  lemma {:induction false} CountUnique(events: seq<Event>, id: string)
    requires UniqueIds(events)
    ensures Count(events, id) <= 1
    decreases |events|
  {
    if events != [] {
      UniqueLast(events);
      CountUnique(events[..|events| - 1], id);
      CountIds(events[..|events| - 1], id);
    }
  }
}
