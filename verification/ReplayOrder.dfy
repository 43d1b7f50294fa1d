/** The order stored moderation is replayed in, within and across seconds, and
    why sorting released events again changes nothing. */
module ReplayOrder {
  import opened Text
  import opened Events
  import opened EventLists
  import opened Moderation

  function Class(kind: nat): nat { if kind == CREATE_GROUP then 0 else if kind == DELETE_GROUP then 1 else 2 }

  function Rank(kind: nat): nat {
    if kind == CREATE_GROUP || kind == DELETE_GROUP then 0 else if kind == JOIN || kind == LEAVE then 2 else 1
  }

  predicate BaseBefore(a: Event, b: Event) {
    || Rank(a.kind) < Rank(b.kind)
    || (Rank(a.kind) == Rank(b.kind) && (a.kind < b.kind || (a.kind == b.kind && LexLess(a.id, b.id))))
  }

  /** Arrival numbers decide between two events that both have one. */
  predicate Numbered(arrived: map<string, nat>, a: Event, b: Event) {
    Class(a.kind) == 2 && a.id in arrived && b.id in arrived
  }

  predicate Before(arrived: map<string, nat>, a: Event, b: Event) {
    if a.createdAt != b.createdAt then a.createdAt < b.createdAt
    else if Class(a.kind) != Class(b.kind) then Class(a.kind) < Class(b.kind)
    else if Numbered(arrived, a, b) && arrived[a.id] != arrived[b.id] then arrived[a.id] < arrived[b.id]
    else BaseBefore(a, b)
  }

  /** The earlier second comes first. Within a second creates come first and group
      deletions next; of the rest, two with different arrival numbers come as they
      arrived; and otherwise joins and leaves come last, and the smaller kind and
      the smaller id first. */
  lemma BeforeExactly(arrived: map<string, nat>, a: Event, b: Event)
    ensures a.createdAt < b.createdAt ==> Before(arrived, a, b) && !Before(arrived, b, a)
    ensures a.createdAt == b.createdAt && a.kind == 9007 && b.kind != 9007 ==>
      Before(arrived, a, b) && !Before(arrived, b, a)
    ensures a.createdAt == b.createdAt && a.kind == 9008 && b.kind != 9007 && b.kind != 9008 ==>
      Before(arrived, a, b) && !Before(arrived, b, a)
    ensures
      var rest := a.createdAt == b.createdAt && a.kind !in {9007, 9008} && b.kind !in {9007, 9008};
      var numbered := a.id in arrived && b.id in arrived && arrived[a.id] != arrived[b.id];
      && (rest && numbered ==> (Before(arrived, a, b) <==> arrived[a.id] < arrived[b.id]))
      && (rest && !numbered && a.kind !in {9021, 9022} && b.kind in {9021, 9022} ==>
            Before(arrived, a, b) && !Before(arrived, b, a))
      && (rest && !numbered && (a.kind in {9021, 9022} <==> b.kind in {9021, 9022}) ==>
            (Before(arrived, a, b) <==> a.kind < b.kind || (a.kind == b.kind && LexLess(a.id, b.id))))
    ensures a.createdAt == b.createdAt && a.kind == b.kind && a.kind in {9007, 9008} ==>
      (Before(arrived, a, b) <==> LexLess(a.id, b.id))
  {
  }

  lemma BaseTransitive(a: Event, b: Event, c: Event)
    requires BaseBefore(a, b) && BaseBefore(b, c)
    ensures BaseBefore(a, c)
  {
    if a.kind == b.kind == c.kind {
      LexTransitive(a.id, b.id, c.id);
    }
  }

  lemma OrderAsymmetric(arrived: map<string, nat>, a: Event, b: Event)
    ensures !(Before(arrived, a, b) && Before(arrived, b, a))
  {
    LexTotal(a.id, b.id);
  }

  /** Different events are ordered one way. */
  lemma OrderTotal(arrived: map<string, nat>, a: Event, b: Event)
    requires a.id != b.id
    ensures Before(arrived, a, b) <==> !Before(arrived, b, a)
  {
    LexTotal(a.id, b.id);
  }

  /** A numbered event before another, and an event without a number that the
      other order puts after the second and before the first. */
  predicate RoundAt(arrived: map<string, nat>, a: Event, b: Event, c: Event) {
    && a.createdAt == b.createdAt == c.createdAt && Class(a.kind) == 2 && Class(b.kind) == 2 && Class(c.kind) == 2
    && a.id in arrived && b.id in arrived && c.id !in arrived && arrived[a.id] < arrived[b.id]
    && BaseBefore(b, c) && BaseBefore(c, a)
  }

  predicate Rounds(arrived: map<string, nat>, a: Event, b: Event, c: Event) {
    RoundAt(arrived, a, b, c) || RoundAt(arrived, b, c, a) || RoundAt(arrived, c, a, b)
  }

  /** Exactly when three events go round. */
  lemma GoRoundExactly(arrived: map<string, nat>, a: Event, b: Event, c: Event)
    requires a.id != b.id && b.id != c.id && a.id != c.id
    ensures Before(arrived, a, b) && Before(arrived, b, c) && Before(arrived, c, a) <==> Rounds(arrived, a, b, c)
  {
    BaseTotal(a, b);
    BaseTotal(b, c);
    BaseTotal(a, c);
    BaseCycle(a, b, c);
    BaseCycle(b, a, c);
  }

  lemma BaseTotal(a: Event, b: Event)
    requires a.id != b.id
    ensures BaseBefore(a, b) <==> !BaseBefore(b, a)
  {
    LexTotal(a.id, b.id);
  }

  lemma BaseCycle(a: Event, b: Event, c: Event)
    requires a.id != b.id && b.id != c.id && a.id != c.id
    ensures !(BaseBefore(a, b) && BaseBefore(b, c) && BaseBefore(c, a))
  {
    if BaseBefore(a, b) && BaseBefore(b, c) {
      BaseTransitive(a, b, c);
      BaseTotal(a, c);
    }
  }

  /** So the order is transitive exactly where no three events are of that shape,
      in particular where all events of a second have arrival numbers or none has. */
  lemma OrderTransitive(arrived: map<string, nat>, a: Event, b: Event, c: Event)
    requires a.id != b.id && b.id != c.id && a.id != c.id && Before(arrived, a, b) && Before(arrived, b, c)
    ensures Before(arrived, a, c) <==> !Rounds(arrived, a, b, c)
    ensures (a.id in arrived <==> b.id in arrived) && (b.id in arrived <==> c.id in arrived) ==> Before(arrived, a, c)
  {
    GoRoundExactly(arrived, a, b, c);
    OrderTotal(arrived, a, c);
  }

  /** Where some have, it need not be: three edits of one second, going round. */
  lemma OrderGoesRound()
    ensures
      var a, b := Event("1", "", 5, 9002, [], "", ""), Event("2", "", 5, 9002, [], "", "");
      var c, arrived := Event("3", "", 5, 9002, [], "", ""), map["1" := 2, "3" := 1];
      Before(arrived, a, b) && Before(arrived, b, c) && Before(arrived, c, a) && Rounds(arrived, a, b, c)
  {
  }

  // ----- sorted histories -----

  ghost predicate Sorted(arrived: map<string, nat>, events: seq<Event>) {
    forall i, j :: 0 <= i < j < |events| ==> Before(arrived, events[i], events[j])
  }

  /** What a sort leaves: neighbours in order. */
  ghost predicate NeighboursInOrder(arrived: map<string, nat>, events: seq<Event>) {
    forall i :: 0 < i < |events| ==> Before(arrived, events[i - 1], events[i])
  }

  ghost predicate NoRounds(arrived: map<string, nat>, events: seq<Event>) {
    forall a, b, c :: a in events && b in events && c in events ==> !Rounds(arrived, a, b, c)
  }

  lemma {:induction false} NeighboursSuffice(arrived: map<string, nat>, events: seq<Event>)
    requires UniqueIds(events) && NeighboursInOrder(arrived, events) && NoRounds(arrived, events)
    ensures Sorted(arrived, events)
    decreases |events|
  {
    if |events| >= 2 {
      var prefix, last := events[..|events| - 1], events[|events| - 1];
      var before := prefix[|prefix| - 1];
      NeighboursSuffice(arrived, prefix);
      assert Before(arrived, before, last);
      forall i | 0 <= i < |prefix| ensures Before(arrived, prefix[i], last) {
        if i < |prefix| - 1 {
          assert events[i] == prefix[i] && events[|prefix| - 1] == before && last in events;
          OrderTransitive(arrived, prefix[i], before, last);
        }
      }
    }
  }

  /** There is only one sorted arrangement of some events, so sorting a sorted
      list is the identity. */
  lemma {:induction false} SortedIsUnique(arrived: map<string, nat>, a: seq<Event>, b: seq<Event>)
    requires Sorted(arrived, a) && Sorted(arrived, b) && multiset(a) == multiset(b)
    ensures a == b
    decreases |a|
  {
    assert |a| == |multiset(a)| == |b|;
    if a != [] {
      SameHead(arrived, a, b);
      SameTail(a, b);
      assert a == [a[0]] + a[1..] && b == [b[0]] + b[1..];
      SortedIsUnique(arrived, a[1..], b[1..]);
    }
  }

  lemma SameTail(a: seq<Event>, b: seq<Event>)
    requires a != [] && b != [] && a[0] == b[0] && multiset(a) == multiset(b)
    ensures multiset(a[1..]) == multiset(b[1..])
  {
    assert a == [a[0]] + a[1..] && b == [b[0]] + b[1..];
    assert multiset(a[1..]) == multiset(a) - multiset{a[0]};
    assert multiset(b[1..]) == multiset(b) - multiset{b[0]};
  }

  lemma SameHead(arrived: map<string, nat>, a: seq<Event>, b: seq<Event>)
    requires Sorted(arrived, a) && Sorted(arrived, b) && multiset(a) == multiset(b) && a != [] && b != []
    ensures a[0] == b[0]
  {
    assert a[0] in multiset(b) && b[0] in multiset(a);
    var j :| 0 <= j < |b| && b[j] == a[0];
    var i :| 0 <= i < |a| && a[i] == b[0];
    OrderAsymmetric(arrived, a[0], b[0]);
  }

  // ----- what is held is in order -----

  /** The order does not look at tags. */
  lemma TagsDoNotMatter(arrived: map<string, nat>, a: Event, b: Event, x: Event, y: Event)
    requires SameButTags(a, x) && SameButTags(b, y) && Before(arrived, a, b)
    ensures Before(arrived, x, y)
  {
  }

  ghost predicate AllBefore(arrived: map<string, nat>, events: seq<Event>, e: Event) {
    forall i :: 0 <= i < |events| ==> Before(arrived, events[i], e)
  }

  lemma SortedSnoc(arrived: map<string, nat>, events: seq<Event>, e: Event)
    ensures Sorted(arrived, events + [e]) <==> Sorted(arrived, events) && AllBefore(arrived, events, e)
  {
    var all := events + [e];
    assert all[|events|] == e && forall i :: 0 <= i < |events| ==> all[i] == events[i];
  }

  lemma {:induction false} PreparedAllBefore<G>(w: World<G>, history: seq<Event>, events: seq<Event>, e: Event)
    requires AllBefore(w.arrived, events, e)
    ensures AllBefore(w.arrived, PrepareAll(w, history, events), Stripped(w, e))
    decreases |events|
  {
    if events != [] {
      var prefix, last := events[..|events| - 1], events[|events| - 1];
      PreparedAllBefore(w, history, prefix, e);
      TagsDoNotMatter(w.arrived, last, e, Stripped(w, last), Stripped(w, e));
    }
  }

  lemma {:induction false} PreparedIsSorted<G>(w: World<G>, history: seq<Event>, events: seq<Event>)
    requires Sorted(w.arrived, events)
    ensures Sorted(w.arrived, PrepareAll(w, history, events))
    decreases |events|
  {
    if events != [] {
      var prefix, last := events[..|events| - 1], events[|events| - 1];
      assert events == prefix + [last];
      SortedSnoc(w.arrived, prefix, last);
      PreparedIsSorted(w, history, prefix);
      PreparedAllBefore(w, history, prefix, last);
      SortedSnoc(w.arrived, PrepareAll(w, history, prefix), Stripped(w, last));
    }
  }

  lemma {:induction false} OfIsSorted(arrived: map<string, nat>, events: seq<Event>, gid: string, own: bool)
    requires Sorted(arrived, events)
    ensures Sorted(arrived, Of(events, gid, own))
    ensures forall x :: x in Of(events, gid, own) ==> x in events
    decreases |events|
  {
    if events != [] {
      var prefix, last := events[..|events| - 1], events[|events| - 1];
      OfIsSorted(arrived, prefix, gid, own);
      assert events == prefix + [last];
      forall x | x in Of(prefix, gid, own) ensures Before(arrived, x, last) {
        var k :| 0 <= k < |prefix| && prefix[k] == x;
        assert Before(arrived, events[k], events[|events| - 1]);
      }
    }
  }

  lemma {:induction false} HeldIsSorted<G>(w: World<G>, events: seq<Event>)
    requires Sorted(w.arrived, events)
    ensures Sorted(w.arrived, VisitAll(w, Start(w), events).held)
    ensures forall x :: x in VisitAll(w, Start(w), events).held ==> x in events
    decreases |events|
  {
    if events != [] {
      var prefix, e := events[..|events| - 1], events[|events| - 1];
      HeldIsSorted(w, prefix);
      assert events == prefix + [e];
      var s := VisitAll(w, Start(w), prefix);
      forall x | x in s.held ensures Before(w.arrived, x, e) {
        var k :| 0 <= k < |prefix| && prefix[k] == x;
        assert Before(w.arrived, events[k], events[|events| - 1]);
      }
      HeldAfter(w, s, e);
    }
  }

  lemma HeldAfter<G>(w: World<G>, s: Walk<G>, e: Event)
    requires Sorted(w.arrived, s.held) && forall x :: x in s.held ==> Before(w.arrived, x, e)
    ensures Sorted(w.arrived, Visit(w, s, e).held)
    ensures forall x :: x in Visit(w, s, e).held ==> x in s.held || x == e
  {
    if Releases(w, s.groups, e) {
      var gid := NonEmptyGroup(e).value;
      OfIsSorted(w.arrived, s.held, gid, false);
      AdjudicateAllHolds(w, Take(w, Adjudicate(w, s, e, true), gid), Of(s.held, gid, true));
    }
  }

  /** What a create releases is in replay order already: any arrangement of it that
      is sorted is the one it is released in. */
  lemma ReleasedInOrder<G>(w: World<G>, history: seq<Event>, n: nat, gid: string, sorted: seq<Event>)
    requires Sorted(w.arrived, history) && n <= |Prepared(w, history)|
    requires
      var own := Of(VisitAll(w, Start(w), Prepared(w, history)[..n]).held, gid, true);
      multiset(sorted) == multiset(own) && Sorted(w.arrived, sorted)
    ensures sorted == Of(VisitAll(w, Start(w), Prepared(w, history)[..n]).held, gid, true)
  {
    var events := Prepared(w, history);
    PreparedIsSorted(w, history, history);
    HeldIsSorted(w, events[..n]);
    var held := VisitAll(w, Start(w), events[..n]).held;
    OfIsSorted(w.arrived, held, gid, true);
    SortedIsUnique(w.arrived, Of(held, gid, true), sorted);
  }
}
