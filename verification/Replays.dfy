/** Two replays compared: a migration's, over a history, and a later one, over
    what is left of it. The later one is the migration's own again or the rebuild
    at startup; by then the clock may have moved on and more keys may have
    vanished. */
module Replays {
  import opened Text
  import opened Events
  import opened EventLists
  import opened Moderation

  ghost predicate Later<G>(w: World<G>, v: World<G>) {
    && !w.startup && w.now <= v.now && w.vanished <= v.vanished
    && v == w.(startup := v.startup, now := v.now, vanished := v.vanished)
  }

  // ----- what the later replay judges -----

  /** What the rebuild skips because of its date. */
  predicate IsLate<G>(v: World<G>, e: Event) { v.startup && FutureDated(v, e) }

  function Late<G>(v: World<G>, history: seq<Event>): set<string> {
    set i | 0 <= i < |history| && IsLate(v, history[i]) :: history[i].id
  }

  lemma LateExactly<G>(v: World<G>, history: seq<Event>, e: Event)
    requires UniqueIds(history) && e in history
    ensures e.id in Late(v, history) <==> IsLate(v, e)
  {
    var k :| 0 <= k < |history| && history[k] == e;
    if e.id in Late(v, history) {
      var j :| 0 <= j < |history| && IsLate(v, history[j]) && history[j].id == e.id;
      assert j == k;
    }
  }

  /** A join is skipped for its author or for a removal. */
  predicate SkipsJoin<G>(w: World<G>, history: seq<Event>, e: Event) {
    e.pubkey in w.vanished || Suppressed(w, history, e)
  }

  /** An event that is left is skipped by both replays or by neither, and loses
      the same tags. */
  ghost predicate Alike<G>(w: World<G>, v: World<G>, history: seq<Event>, left: seq<Event>, e: Event) {
    && (e.kind == JOIN ==> (SkipsJoin(v, left, e) <==> SkipsJoin(w, history, e)))
    && (e.kind == PUT_USER ==> WithoutVanished(v, e.tags) == WithoutVanished(w, e.tags))
  }

  ghost predicate AllAlike<G>(w: World<G>, v: World<G>, history: seq<Event>, gone: set<string>) {
    forall e :: e in Without(history, gone) && !IsLate(v, e) ==> Alike(w, v, history, Without(history, gone), e)
  }

  /** An event the later replay skips or strips just as the first one did. */
  ghost predicate SameTreatment<G>(
    w: World<G>, v: World<G>, history: seq<Event>, left: seq<Event>, all: set<string>, e: Event)
  {
    && (Skips(v, left, e) <==> Skips(w, history, e) || e.id in all)
    && (!Skips(v, left, e) ==> Stripped(v, e) == Stripped(w, e))
  }

  lemma PrepareSnoc<G>(v: World<G>, history: seq<Event>, events: seq<Event>, e: Event)
    ensures PrepareAll(v, history, events + [e]) ==
      if Skips(v, history, e) then PrepareAll(v, history, events) else PrepareAll(v, history, events) + [Stripped(v, e)]
  {
    assert (events + [e])[..|events|] == events;
  }

  lemma {:induction false} PreparedCommutes<G>(
    w: World<G>, v: World<G>, history: seq<Event>, left: seq<Event>, events: seq<Event>,
    gone: set<string>, all: set<string>)
    requires gone <= all
    requires forall e :: e in events && e.id !in gone ==> SameTreatment(w, v, history, left, all, e)
    ensures PrepareAll(v, left, Without(events, gone)) == Without(PrepareAll(w, history, events), all)
    decreases |events|
  {
    if events != [] {
      var prefix, e := events[..|events| - 1], events[|events| - 1];
      assert events == prefix + [e];
      PreparedCommutes(w, v, history, left, prefix, gone, all);
      WithoutSnoc(PrepareAll(w, history, prefix), Stripped(w, e), all);
      PrepareSnoc(v, left, Without(prefix, gone), e);
    }
  }

  /** Whether an event is judged, and as what. */
  lemma {:induction false} PreparedHolds<G>(w: World<G>, history: seq<Event>, events: seq<Event>, e: Event)
    requires UniqueIds(events) && e in events
    ensures e.id in Ids(PrepareAll(w, history, events)) <==> !Skips(w, history, e)
    ensures !Skips(w, history, e) ==> Stripped(w, e) in PrepareAll(w, history, events)
    decreases |events|
  {
    var prefix, last := events[..|events| - 1], events[|events| - 1];
    var done := PrepareAll(w, history, prefix);
    UniqueLast(events);
    IdsSnoc(done, Stripped(w, last));
    PreparedIds(w, history, prefix);
    if e == last {
      assert e.id !in Ids(prefix);
      assert (done + [Stripped(w, last)])[|done|] == Stripped(w, last);
    } else {
      assert e in prefix;
      PreparedHolds(w, history, prefix, e);
      var i :| 0 <= i < |prefix| && prefix[i] == e;
    }
  }

  lemma {:induction false} PreparedIds<G>(w: World<G>, history: seq<Event>, events: seq<Event>)
    ensures Ids(PrepareAll(w, history, events)) <= Ids(events)
    decreases |events|
  {
    if events != [] {
      var prefix, last := events[..|events| - 1], events[|events| - 1];
      assert events == prefix + [last];
      PreparedIds(w, history, prefix);
      IdsSnoc(prefix, last);
      IdsSnoc(PrepareAll(w, history, prefix), Stripped(w, last));
    }
  }

  lemma {:induction false} PreparedUnique<G>(w: World<G>, history: seq<Event>, events: seq<Event>)
    requires UniqueIds(events)
    ensures UniqueIds(PrepareAll(w, history, events))
    decreases |events|
  {
    if events != [] {
      var prefix, last := events[..|events| - 1], events[|events| - 1];
      UniqueLast(events);
      PreparedUnique(w, history, prefix);
      PreparedIds(w, history, prefix);
      if !Skips(w, history, last) {
        UniqueSnoc(PrepareAll(w, history, prefix), Stripped(w, last));
      }
    }
  }

  lemma WithoutIds(events: seq<Event>, gone: set<string>, id: string)
    ensures id in Ids(Without(events, gone)) <==> id in Ids(events) && id !in gone
  {
    WithoutShrinks(events, gone);
    if id in Ids(events) && id !in gone {
      var i :| 0 <= i < |events| && events[i].id == id;
      assert events[i] in Without(events, gone);
    }
  }

  /** Skipping and stripping come down to joins, grants and dates. */
  lemma TreatedAlike<G>(w: World<G>, v: World<G>, history: seq<Event>, gone: set<string>, e: Event)
    requires Later(w, v) && UniqueIds(history) && e in history && e.id !in gone
    ensures
      var left, all := Without(history, gone), gone + Late(v, history);
      SameTreatment(w, v, history, left, all, e) <==> (IsLate(v, e) || Alike(w, v, history, left, e))
  {
    LateExactly(v, history, e);
  }

  lemma TreatmentShows<G>(w: World<G>, v: World<G>, history: seq<Event>, gone: set<string>, all: set<string>, e: Event)
    requires UniqueIds(history) && e in Without(history, gone)
    requires Prepared(v, Without(history, gone)) == Without(Prepared(w, history), all)
    ensures SameTreatment(w, v, history, Without(history, gone), all, e)
  {
    var left := Without(history, gone);
    WithoutUnique(history, gone);
    ComesFrom(history, gone, e);
    PreparedHolds(w, history, history, e);
    PreparedHolds(v, left, left, e);
    WithoutIds(Prepared(w, history), all, e.id);
    if !Skips(v, left, e) {
      StaysIn(Prepared(w, history), all, Stripped(w, e));
      PreparedUnique(v, left, left);
      UniqueEvent(Prepared(v, left), Stripped(v, e), Stripped(w, e));
    }
  }

  /** The later replay judges exactly what the first one judged and left, its
      late-dated events aside, if and only if both skip the same of the joins that
      are left and strip the same of the grants. */
  lemma PreparedExactly<G>(w: World<G>, v: World<G>, history: seq<Event>, gone: set<string>)
    requires Later(w, v) && UniqueIds(history)
    ensures Prepared(v, Without(history, gone)) == Without(Prepared(w, history), gone + Late(v, history))
      <==> AllAlike(w, v, history, gone)
  {
    var left, all := Without(history, gone), gone + Late(v, history);
    if AllAlike(w, v, history, gone) {
      forall e | e in history && e.id !in gone ensures SameTreatment(w, v, history, left, all, e) {
        StaysIn(history, gone, e);
        TreatedAlike(w, v, history, gone, e);
      }
      PreparedCommutes(w, v, history, left, history, gone, all);
    }
    if Prepared(v, left) == Without(Prepared(w, history), all) {
      forall e | e in left && !IsLate(v, e) ensures Alike(w, v, history, left, e) {
        ComesFrom(history, gone, e);
        TreatmentShows(w, v, history, gone, all, e);
        TreatedAlike(w, v, history, gone, e);
      }
    }
  }

  lemma StaysIn(events: seq<Event>, gone: set<string>, e: Event)
    requires e in events && e.id !in gone
    ensures e in Without(events, gone)
  {
    var i :| 0 <= i < |events| && events[i] == e;
  }

  lemma ComesFrom(events: seq<Event>, gone: set<string>, e: Event)
    requires e in Without(events, gone)
    ensures e in events && e.id !in gone
  {
    var i :| 0 <= i < |Without(events, gone)| && Without(events, gone)[i] == e;
  }

  // ----- the walks side by side -----

  /** `t` is where the later replay stands when the first one stands at `s`. */
  ghost predicate Beside<G>(w: World<G>, v: World<G>, s: Walk<G>, t: Walk<G>, gone: set<string>) {
    && t.groups == s.groups && t.held == Without(s.held, gone) && (!v.startup ==> t.accepted == s.accepted)
    && Sized(w, s) && Sized(v, t)
  }

  /** What the later replay applies of an event it judges, the first one applied
      too, or it changes nothing and creates no group. */
  ghost predicate Harmless<G>(w: World<G>, v: World<G>, g: G, e: Event) {
    Authorized(v, g, e) ==> Authorized(w, g, e) || (v.startup && w.apply(g, e) == g && e.kind != CREATE_GROUP)
  }

  ghost predicate HarmlessJudged<G>(w: World<G>, v: World<G>, s: Walk<G>, events: seq<Event>, gone: set<string>) {
    forall j :: 0 <= j < |events| && events[j].id !in gone ==>
      Harmless(w, v, AdjudicateAll(w, s, events[..j]).groups, events[j])
  }

  ghost predicate HarmlessDecided<G>(w: World<G>, v: World<G>, s: Walk<G>, e: Event, gone: set<string>) {
    && (e.id !in gone ==> Harmless(w, v, s.groups, e))
    && (Releases(w, s.groups, e) ==>
          var gid := NonEmptyGroup(e).value;
          HarmlessJudged(w, v, Take(w, Adjudicate(w, s, e, true), gid), Of(s.held, gid, true), gone))
  }

  /** Whether a visit judges the event, in place of holding it back or skipping it. */
  predicate Judges<G>(w: World<G>, s: Walk<G>, e: Event) {
    !Early(w, s.groups, e) || (e.kind != DELETE_GROUP && !HasRoom(w, s, e))
  }

  ghost predicate HarmlessAll<G>(w: World<G>, v: World<G>, events: seq<Event>, gone: set<string>) {
    forall i :: 0 <= i < |events| && Judges(w, VisitAll(w, Start(w), events[..i]), events[i]) ==>
      HarmlessDecided(w, v, VisitAll(w, Start(w), events[..i]), events[i], gone)
  }

  /** The caps on held events never bind: whenever an early event is to be held,
      there is room for it. */
  ghost predicate Roomy<G>(w: World<G>, events: seq<Event>) {
    forall i :: 0 <= i < |events| ==> RoomFor(w, VisitAll(w, Start(w), events[..i]), events[i])
  }

  predicate RoomFor<G>(w: World<G>, s: Walk<G>, e: Event) {
    Early(w, s.groups, e) && e.kind != DELETE_GROUP ==> HasRoom(w, s, e)
  }

  lemma {:induction false} BytesWithout<G>(w: World<G>, v: World<G>, events: seq<Event>, gone: set<string>)
    requires Later(w, v)
    ensures TotalBytes(v, Without(events, gone)) <= TotalBytes(w, events)
    decreases |events|
  {
    if events != [] {
      BytesWithout(w, v, events[..|events| - 1], gone);
      TotalBytesSnoc(v, Without(events[..|events| - 1], gone), events[|events| - 1]);
    }
  }

  lemma {:induction false} OfWithout(events: seq<Event>, gid: string, own: bool, gone: set<string>)
    ensures Of(Without(events, gone), gid, own) == Without(Of(events, gid, own), gone)
    decreases |events|
  {
    if events != [] {
      var prefix, last := events[..|events| - 1], events[|events| - 1];
      OfWithout(prefix, gid, own, gone);
      WithoutSnoc(Of(prefix, gid, own), last, gone);
      assert (Without(prefix, gone) + [last])[..|Without(prefix, gone)|] == Without(prefix, gone);
    }
  }

  lemma BesideJudged<G>(
    w: World<G>, v: World<G>, s: Walk<G>, t: Walk<G>, e: Event, orphansKept: bool, gone: set<string>)
    requires Later(w, v) && Beside(w, v, s, t, gone)
    requires e.id !in gone ==> Harmless(w, v, s.groups, e)
    requires e.id in gone ==> !Authorized(w, s.groups, e)
    ensures e.id in gone ==> Beside(w, v, Adjudicate(w, s, e, orphansKept), t, gone)
    ensures e.id !in gone ==> Beside(w, v, Adjudicate(w, s, e, orphansKept), Adjudicate(v, t, e, orphansKept), gone)
  {
  }

  lemma GoneNotAccepted(accepted: seq<Event>, all: seq<Event>, gone: set<string>, e: Event)
    requires accepted <= all && gone !! Ids(all) && e in accepted
    ensures e.id !in gone
  {
    var i :| 0 <= i < |accepted| && accepted[i] == e;
    assert all[i] == e;
  }

  lemma {:induction false} BesideReleased<G>(
    w: World<G>, v: World<G>, s: Walk<G>, t: Walk<G>, events: seq<Event>, gone: set<string>)
    requires Later(w, v) && Beside(w, v, s, t, gone) && HarmlessJudged(w, v, s, events, gone)
    requires gone !! Ids(AdjudicateAll(w, s, events).accepted)
    ensures Beside(w, v, AdjudicateAll(w, s, events), AdjudicateAll(v, t, Without(events, gone)), gone)
    decreases |events|
  {
    if events != [] {
      var prefix, e := events[..|events| - 1], events[|events| - 1];
      var all := AdjudicateAll(w, s, events).accepted;
      JudgingAdds(w, s, events, |events| - 1);
      var s' := AdjudicateAll(w, s, prefix);
      assert gone !! Ids(s'.accepted) by {
        forall i | 0 <= i < |s'.accepted| ensures s'.accepted[i].id !in gone {
          assert all[i] == s'.accepted[i];
        }
      }
      assert HarmlessJudged(w, v, s, prefix, gone) by {
        assert forall j :: 0 <= j < |prefix| ==> prefix[..j] == events[..j] && prefix[j] == events[j];
      }
      BesideReleased(w, v, s, t, prefix, gone);
      if Authorized(w, s'.groups, e) {
        GoneNotAccepted(all, all, gone, e);
      }
      var t' := AdjudicateAll(v, t, Without(prefix, gone));
      BesideJudged(w, v, s', t', e, false, gone);
      if e.id !in gone {
        assert (Without(prefix, gone) + [e])[..|Without(prefix, gone)|] == Without(prefix, gone);
      }
    }
  }

  lemma BesideTaken<G>(w: World<G>, v: World<G>, s: Walk<G>, t: Walk<G>, gid: string, gone: set<string>)
    requires Later(w, v) && Beside(w, v, s, t, gone)
    ensures Beside(w, v, Take(w, s, gid), Take(v, t, gid), gone)
  {
    OfWithout(s.held, gid, false, gone);
    OfSizes(w, s.held, gid);
    OfSizes(v, t.held, gid);
  }

  lemma BesideDecided<G>(w: World<G>, v: World<G>, s: Walk<G>, t: Walk<G>, e: Event, gone: set<string>)
    requires Later(w, v) && Beside(w, v, s, t, gone) && e.id !in gone
    requires HarmlessDecided(w, v, s, e, gone) && gone !! Ids(Decide(w, s, e).accepted)
    ensures Beside(w, v, Decide(w, s, e), Decide(v, t, e), gone)
  {
    BesideJudged(w, v, s, t, e, true, gone);
    if Releases(w, s.groups, e) {
      var gid := NonEmptyGroup(e).value;
      var s', t' := Adjudicate(w, s, e, true), Adjudicate(v, t, e, true);
      BesideTaken(w, v, s', t', gid, gone);
      OfWithout(s.held, gid, true, gone);
      BesideReleased(w, v, Take(w, s', gid), Take(v, t', gid), Of(s.held, gid, true), gone);
    }
  }

  lemma BesideHeld<G>(w: World<G>, v: World<G>, s: Walk<G>, t: Walk<G>, e: Event, gone: set<string>)
    requires Later(w, v) && Beside(w, v, s, t, gone)
    ensures Beside(w, v, Hold(w, s, e), if e.id in gone then t else Hold(v, t, e), gone)
  {
    WithoutSnoc(s.held, e, gone);
    TotalBytesSnoc(w, s.held, e);
    TotalBytesSnoc(v, t.held, e);
  }

  /** What is left holds no more than what was there. */
  lemma BesideHasRoom<G>(w: World<G>, v: World<G>, s: Walk<G>, t: Walk<G>, e: Event, gone: set<string>)
    requires Later(w, v) && Beside(w, v, s, t, gone) && HasRoom(w, s, e)
    ensures HasRoom(v, t, e)
  {
    BytesWithout(w, v, s.held, gone);
  }

  lemma BesideVisited<G>(w: World<G>, v: World<G>, s: Walk<G>, t: Walk<G>, e: Event, gone: set<string>)
    requires Later(w, v) && Beside(w, v, s, t, gone) && RoomFor(w, s, e)
    requires (Judges(w, s, e) ==> HarmlessDecided(w, v, s, e, gone)) && gone !! Ids(Visit(w, s, e).accepted)
    ensures Beside(w, v, Visit(w, s, e), if e.id in gone then t else Visit(v, t, e), gone)
  {
    if Early(w, s.groups, e) {
      if e.kind != DELETE_GROUP {
        BesideHeld(w, v, s, t, e, gone);
        BesideHasRoom(w, v, s, t, e, gone);
      }
    } else if e.id in gone {
      assert !Authorized(w, s.groups, e) by {
        if Authorized(w, s.groups, e) {
          AuthorizedIsAccepted(w, s, e);
        }
      }
      BesideJudged(w, v, s, t, e, true, gone);
    } else {
      BesideDecided(w, v, s, t, e, gone);
    }
  }

  lemma AuthorizedIsAccepted<G>(w: World<G>, s: Walk<G>, e: Event)
    requires Judges(w, s, e) && Authorized(w, s.groups, e)
    ensures e.id in Ids(Visit(w, s, e).accepted)
  {
    VisitAdds(w, s, e);
    assert Adjudicate(w, s, e, true).accepted[|s.accepted|] == e;
    assert Visit(w, s, e).accepted[|s.accepted|] == e;
  }

  lemma {:induction false} BesideAll<G>(w: World<G>, v: World<G>, events: seq<Event>, gone: set<string>)
    requires Later(w, v) && Roomy(w, events) && HarmlessAll(w, v, events, gone)
    requires gone !! Ids(VisitAll(w, Start(w), events).accepted)
    ensures Beside(w, v, VisitAll(w, Start(w), events), VisitAll(v, Start(v), Without(events, gone)), gone)
    decreases |events|
  {
    if events != [] {
      var prefix, e := events[..|events| - 1], events[|events| - 1];
      var s, all := VisitAll(w, Start(w), prefix), VisitAll(w, Start(w), events).accepted;
      VisitAdds(w, s, e);
      assert gone !! Ids(s.accepted) by {
        forall i | 0 <= i < |s.accepted| ensures s.accepted[i].id !in gone {
          assert all[i] == s.accepted[i];
        }
      }
      PrefixKeeps(w, v, events, gone);
      BesideAll(w, v, prefix, gone);
      assert events[..|prefix|] == prefix;
      BesideVisited(w, v, s, VisitAll(v, Start(v), Without(prefix, gone)), e, gone);
      if e.id !in gone {
        assert (Without(prefix, gone) + [e])[..|Without(prefix, gone)|] == Without(prefix, gone);
      }
    }
  }

  lemma PrefixKeeps<G>(w: World<G>, v: World<G>, events: seq<Event>, gone: set<string>)
    requires events != [] && Roomy(w, events) && HarmlessAll(w, v, events, gone)
    ensures Roomy(w, events[..|events| - 1]) && HarmlessAll(w, v, events[..|events| - 1], gone)
  {
    var prefix := events[..|events| - 1];
    assert forall i :: 0 <= i < |prefix| ==> prefix[..i] == events[..i] && prefix[i] == events[i];
  }

  /** The later replay derives the same groups, and with the same gate accepts the
      same events in the same order. */
  lemma ReplaysAgree<G>(w: World<G>, v: World<G>, history: seq<Event>, gone: set<string>)
    requires Later(w, v) && UniqueIds(history) && Roomy(w, Prepared(w, history))
    requires gone !! Ids(Replay(w, history).accepted) && AllAlike(w, v, history, gone)
    requires HarmlessAll(w, v, Prepared(w, history), gone + Late(v, history))
    ensures Replay(v, Without(history, gone)).groups == Replay(w, history).groups
    ensures !v.startup ==> Replay(v, Without(history, gone)).accepted == Replay(w, history).accepted
  {
    PreparedExactly(w, v, history, gone);
    LateAreRefused(w, v, history);
    BesideAll(w, v, Prepared(w, history), gone + Late(v, history));
  }

  lemma LateAreRefused<G>(w: World<G>, v: World<G>, history: seq<Event>)
    requires Later(w, v) && UniqueIds(history)
    ensures Late(v, history) !! Ids(Replay(w, history).accepted)
  {
    var accepted := Replay(w, history).accepted;
    AcceptedAdmissible(w, Prepared(w, history));
    ReplayFrom(w, history);
    forall i | 0 <= i < |accepted| ensures accepted[i].id !in Late(v, history) {
      assert Comes(history, accepted[i]);
      var k :| 0 <= k < |history| && SameButTags(history[k], accepted[i]);
      LateExactly(v, history, history[k]);
    }
  }
}
