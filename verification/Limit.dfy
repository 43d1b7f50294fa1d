/** The `limit` of a filter, with every event tied with the last one counted. */
module Limit {
  import opened Events
  import opened EventLists

  ghost predicate NewestFirst(events: seq<Event>) {
    forall i, j :: 0 <= i < j < |events| ==> events[i].createdAt >= events[j].createdAt
  }

  /** How many events are strictly newer than a time. */
  function NewerThan(events: seq<Event>, t: nat): nat {
    if events == [] then 0
    else NewerThan(events[..|events| - 1], t) + if events[|events| - 1].createdAt > t then 1 else 0
  }

  /** The ids an answer limited to `k` must hold: fewer than `k` matches are newer. */
  ghost function Within(events: seq<Event>, k: nat): set<string> {
    set i | 0 <= i < |events| && NewerThan(events, events[i].createdAt) < k :: events[i].id
  }

  lemma {:induction false} NewerAtMost(events: seq<Event>, t: nat, p: nat)
    requires p <= |events| && forall j :: p <= j < |events| ==> events[j].createdAt <= t
    ensures NewerThan(events, t) <= p
    decreases |events|
  {
    if |events| > p {
      NewerAtMost(events[..|events| - 1], t, p);
    } else if events != [] {
      NewerAtMost(events[..|events| - 1], t, p - 1);
    }
  }

  lemma {:induction false} NewerAtLeast(events: seq<Event>, t: nat, p: nat)
    requires p <= |events| && forall j :: 0 <= j < p ==> events[j].createdAt > t
    ensures NewerThan(events, t) >= p
    decreases |events|
  {
    if |events| > p {
      NewerAtLeast(events[..|events| - 1], t, p);
    } else if events != [] {
      NewerAtLeast(events[..|events| - 1], t, p - 1);
    }
  }

  /** A walk that stops after the ties of the `k`-th event saw exactly the
      events that belong in the answer. */
  lemma StopsInTime(events: seq<Event>, k: nat, stop: nat, i: nat)
    requires NewestFirst(events) && 0 < k && stop <= |events| && i < |events|
    requires k < stop ==> events[stop - 1].createdAt == events[k - 1].createdAt
    requires stop < |events| ==> k <= stop && events[stop].createdAt != events[k - 1].createdAt
    ensures NewerThan(events, events[i].createdAt) < k <==> i < stop
  {
    if i >= stop {
      NewerAtLeast(events, events[i].createdAt, k);
    } else if i < k {
      NewerAtMost(events, events[i].createdAt, i);
    } else {
      NewerAtMost(events, events[i].createdAt, k - 1);
    }
  }

  lemma IdsStep(events: seq<Event>, n: nat)
    requires n < |events|
    ensures Ids(events[..n + 1]) == Ids(events[..n]) + {events[n].id}
  {
    var before, after := events[..n], events[..n + 1];
    forall id | id in Ids(before) ensures id in Ids(after) {
      var i :| 0 <= i < |before| && before[i].id == id;
      assert after[i].id == id;
    }
    assert after[n].id == events[n].id;
  }

  lemma IdsFresh(events: seq<Event>, n: nat)
    requires UniqueIds(events) && n < |events|
    ensures events[n].id !in Ids(events[..n])
  {
  }

  lemma WalkedIsWithin(events: seq<Event>, k: nat, stop: nat)
    requires NewestFirst(events) && 0 < k && stop <= |events|
    requires k < stop ==> events[stop - 1].createdAt == events[k - 1].createdAt
    requires stop < |events| ==> k <= stop && events[stop].createdAt != events[k - 1].createdAt
    ensures Ids(events[..stop]) == Within(events, k)
  {
    forall i | 0 <= i < |events| ensures NewerThan(events, events[i].createdAt) < k <==> i < stop {
      StopsInTime(events, k, stop, i);
    }
    var walked := events[..stop];
    forall id | id in Within(events, k) ensures id in Ids(walked) {
      var i :| 0 <= i < |events| && NewerThan(events, events[i].createdAt) < k && events[i].id == id;
      assert walked[i].id == id;
    }
    forall id | id in Ids(walked) ensures id in Within(events, k) {
      var i :| 0 <= i < |walked| && walked[i].id == id;
      assert events[i].id == id;
    }
  }

  /** The ids a limited query must return, from the matches newest first. Any
      list gives the ids of a prefix of it, at least `k` of them unless there are
      fewer. */
  method LimitedIds(matching: seq<Event>, k: nat) returns (out: set<string>)
    ensures out <= Ids(matching) && (|out| >= k || out == Ids(matching)) && (k == 0 ==> out == {})
    ensures NewestFirst(matching) && UniqueIds(matching) ==> out == Within(matching, k)
  {
    out := {};
    if k == 0 {
      return;
    }
    ghost var ordered := NewestFirst(matching) && UniqueIds(matching);
    var boundary, n := 0, 0;
    while n < |matching|
      invariant n <= |matching| && out == Ids(matching[..n])
      invariant ordered ==>
        |out| == n && (n >= k ==> boundary == matching[k - 1].createdAt == matching[n - 1].createdAt)
    {
      if |out| >= k && boundary != matching[n].createdAt {
        break;
      }
      if |out| + 1 == k {
        boundary := matching[n].createdAt;
      }
      IdsStep(matching, n);
      if ordered {
        IdsFresh(matching, n);
      }
      out := out + {matching[n].id};
      n := n + 1;
    }
    IdsPrefix(matching, n);
    if ordered {
      WalkedIsWithin(matching, k, n);
    }
  }

  lemma IdsPrefix(events: seq<Event>, n: nat)
    requires n <= |events|
    ensures Ids(events[..n]) <= Ids(events)
    ensures n == |events| ==> Ids(events[..n]) == Ids(events)
  {
    forall id | id in Ids(events[..n]) ensures id in Ids(events) {
      var i :| 0 <= i < n && events[..n][i].id == id;
      assert events[i].id == id;
    }
    if n == |events| {
      assert events[..n] == events;
    }
  }
}
