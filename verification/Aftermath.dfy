/** What a migration leaves behind: whether a second run of its own replay, and
    the rebuild at the next startup, derive the groups it authorised against.
    After the moderation step the migration applies the stored NIP-09 and NIP-62
    requests, so the later replays read a smaller database and more vanished keys;
    and their clock is a later one. */
module Aftermath {
  import opened Text
  import opened Events
  import opened EventLists
  import opened Moderation
  import opened GroupActions
  import opened Traces
  import opened Replays
  import opened Requests

  /** The moderation a trace's database holds. */
  function History(t: Trace): seq<Event> { Moderations(Now(t)) }

  /** What is stored when the migration is done. */
  ghost function Left<G>(w: World<G>, p: Policy, t: Trace): seq<Event> {
    Without(Remainder(w, t), Reached(p, Remainder(w, t)))
  }

  ghost function Gone<G>(w: World<G>, p: Policy, t: Trace): set<string> {
    Dropped(w, t) + Reached(p, Remainder(w, t))
  }

  /** The world a later replay reads. */
  ghost function Then<G>(w: World<G>, p: Policy, t: Trace, startup: bool, now: nat): World<G> {
    w.(startup := startup, now := now, vanished := w.vanished + Vanishing(p, Remainder(w, t)))
  }

  lemma LeftHistory<G>(w: World<G>, p: Policy, t: Trace)
    ensures Moderations(Left(w, p, t)) == Without(History(t), Gone(w, p, t))
  {
    var dropped, reached := Dropped(w, t), Reached(p, Remainder(w, t));
    ModerationsWithout(Remainder(w, t), reached);
    ModerationsWithout(Now(t), dropped);
    WithoutTwice(History(t), dropped, reached);
  }

  lemma HistoryUnique<G>(w: World<G>, t: Trace)
    requires Lawful(w, t)
    ensures UniqueIds(History(t))
  {
    NowUnique(w, t);
    ModerationsUnique(Now(t));
  }

  /** Nothing that is dropped was accepted. */
  lemma DroppedWereNotAccepted<G>(w: World<G>, t: Trace)
    requires Lawful(w, t)
    ensures Dropped(w, t) !! Ids(Replay(w, History(t)).accepted)
  {
    HistoryUnique(w, t);
    forall id | id in Dropped(w, t) ensures id !in Ids(Replay(w, History(t)).accepted) {
      var f :| f in Undecided(Replay(w, History(t))) && Drops(f, Applied(t), Admitted(w, t), {}) && f.id == id;
      UndecidedIsStored(w, Now(t), f);
      JudgedOnce(w, History(t), id);
    }
  }

  /** No stored request removes an event the final replay accepted. */
  ghost predicate Spared<G>(w: World<G>, p: Policy, t: Trace) {
    Reached(p, Remainder(w, t)) !! Ids(Replay(w, History(t)).accepted)
  }

  /** The final replay accepted nothing that is gone if and only if the stored
      requests spare what it accepted. */
  lemma SparedExactly<G>(w: World<G>, p: Policy, t: Trace)
    requires Lawful(w, t)
    ensures Spared(w, p, t) <==> Gone(w, p, t) !! Ids(Replay(w, History(t)).accepted)
  {
    DroppedWereNotAccepted(w, t);
  }

  // ----- a second run of the migration's replay -----

  /** No event that is left was future-dated and no longer is. */
  ghost predicate NoneComeOfAge<G>(w: World<G>, v: World<G>, history: seq<Event>, gone: set<string>) {
    forall e :: e in Without(history, gone) && FutureDated(w, e) ==> FutureDated(v, e)
  }

  lemma SameVerdict<G>(w: World<G>, v: World<G>, history: seq<Event>, gone: set<string>, g: G, e: Event)
    requires Later(w, v) && !v.startup && NoneComeOfAge(w, v, history, gone) && Comes(history, e) && e.id !in gone
    ensures Harmless(w, v, g, e)
  {
    var k :| 0 <= k < |history| && SameButTags(history[k], e);
    StaysIn(history, gone, history[k]);
  }

  lemma SameVerdicts<G>(w: World<G>, v: World<G>, history: seq<Event>, gone: set<string>)
    requires Later(w, v) && !v.startup && NoneComeOfAge(w, v, history, gone)
    ensures HarmlessAll(w, v, Prepared(w, history), gone)
  {
    var events := Prepared(w, history);
    forall i | 0 <= i < |events| && Judges(w, VisitAll(w, Start(w), events[..i]), events[i])
      ensures HarmlessDecided(w, v, VisitAll(w, Start(w), events[..i]), events[i], gone)
    {
      NextVisit(w, history, i);
      SameDecision(w, v, history, gone, VisitAll(w, Start(w), events[..i]), events[i]);
    }
  }

  lemma SameDecision<G>(w: World<G>, v: World<G>, history: seq<Event>, gone: set<string>, s: Walk<G>, e: Event)
    requires Later(w, v) && !v.startup && NoneComeOfAge(w, v, history, gone) && Comes(history, e)
    requires WalkFrom(s, history)
    ensures HarmlessDecided(w, v, s, e, gone)
  {
    if e.id !in gone {
      SameVerdict(w, v, history, gone, s.groups, e);
    }
    if Releases(w, s.groups, e) {
      var gid := NonEmptyGroup(e).value;
      var start, own := Take(w, Adjudicate(w, s, e, true), gid), Of(s.held, gid, true);
      OfFrom(s.held, gid, true, history);
      forall j | 0 <= j < |own| && own[j].id !in gone
        ensures Harmless(w, v, AdjudicateAll(w, start, own[..j]).groups, own[j])
      {
        SameVerdict(w, v, history, gone, AdjudicateAll(w, start, own[..j]).groups, own[j]);
      }
    }
  }

  /** A second run, at any later time, accepts exactly what the final replay
      accepted, in the same order, if and only if the stored requests spared that;
      it then derives the same groups and finds nothing left to do. Conditions: it
      skips and strips alike, no kept event has come of age, and the caps on held
      events do not bind. */
  lemma RerunAgrees<G>(w: World<G>, p: Policy, t: Trace, now: nat)
    requires !w.startup && w.now <= now && Lawful(w, t) && Stable(w, History(t), Applied(t))
    requires Roomy(w, Prepared(w, History(t)))
    requires AllAlike(w, Then(w, p, t, false, now), History(t), Gone(w, p, t))
    requires NoneComeOfAge(w, Then(w, p, t, false, now), History(t), Gone(w, p, t))
    ensures
      var v, left := Then(w, p, t, false, now), Moderations(Left(w, p, t));
      && (Replay(v, left).accepted == Replay(w, History(t)).accepted <==> Spared(w, p, t))
      && (Spared(w, p, t) ==> Replay(v, left).groups == Replay(w, History(t)).groups && Stable(v, left, Applied(t)))
  {
    var v, gone, left := Then(w, p, t, false, now), Gone(w, p, t), Moderations(Left(w, p, t));
    LeftHistory(w, p, t);
    HistoryUnique(w, t);
    SparedExactly(w, p, t);
    if Spared(w, p, t) {
      assert Late(v, History(t)) == {};
      assert gone + {} == gone;
      SameVerdicts(w, v, History(t), gone);
      ReplaysAgree(w, v, History(t), gone);
    } else {
      OnlyLeftAreAccepted(v, History(t), gone);
    }
  }

  lemma OnlyLeftAreAccepted<G>(v: World<G>, history: seq<Event>, gone: set<string>)
    ensures gone !! Ids(Replay(v, Without(history, gone)).accepted)
  {
    var left := Without(history, gone);
    var accepted := Replay(v, left).accepted;
    ReplayFrom(v, left);
    forall i | 0 <= i < |accepted| ensures accepted[i].id !in gone {
      assert Comes(left, accepted[i]);
      var k :| 0 <= k < |left| && SameButTags(left[k], accepted[i]);
    }
  }

  // ----- the rebuild at startup -----

  /** What the group store does not react to: a kind:9005, whose deletion is the
      database's, and a join to a group it does not know. */
  ghost predicate Inert<G(!new)>(w: World<G>) {
    && (forall g: G, e: Event :: e.kind == DELETE_EVENT ==> w.apply(g, e) == g)
    && (forall g: G, e: Event :: e.kind == JOIN && GroupId(e).Some? && !w.known(g, GroupId(e).value) ==>
         w.apply(g, e) == g)
  }

  /** Whatever the replay refused is dropped, its kind:9005s aside. */
  ghost predicate RefusalsGo<G>(s: Walk<G>, gone: set<string>) {
    forall i :: 0 <= i < |s.refused| ==> s.refused[i].kind == DELETE_EVENT || s.refused[i].id in gone
  }

  lemma {:induction false} JudgingRefuses<G>(w: World<G>, s: Walk<G>, events: seq<Event>, n: nat)
    requires n <= |events|
    ensures AdjudicateAll(w, s, events[..n]).refused <= AdjudicateAll(w, s, events).refused
    decreases |events|
  {
    if n < |events| {
      var prefix := events[..|events| - 1];
      JudgingRefuses(w, s, prefix, n);
      assert prefix[..n] == events[..n];
    } else {
      assert events[..n] == events;
    }
  }

  lemma VisitRefuses<G>(w: World<G>, s: Walk<G>, e: Event)
    ensures s.refused <= Visit(w, s, e).refused
    ensures Judges(w, s, e) ==> Adjudicate(w, s, e, true).refused <= Visit(w, s, e).refused
  {
    if Releases(w, s.groups, e) {
      var gid := NonEmptyGroup(e).value;
      var t, own := Take(w, Adjudicate(w, s, e, true), gid), Of(s.held, gid, true);
      JudgingRefuses(w, t, own, 0);
      assert AdjudicateAll(w, t, own[..0]) == t;
    }
  }

  lemma {:induction false} VisitingRefuses<G>(w: World<G>, s: Walk<G>, events: seq<Event>, n: nat)
    requires n <= |events|
    ensures VisitAll(w, s, events[..n]).refused <= VisitAll(w, s, events).refused
    decreases |events|
  {
    if n < |events| {
      var prefix := events[..|events| - 1];
      VisitingRefuses(w, s, prefix, n);
      assert prefix[..n] == events[..n];
      VisitRefuses(w, VisitAll(w, s, prefix), events[|events| - 1]);
    } else {
      assert events[..n] == events;
    }
  }

  lemma RefusalsGoSooner<G>(s: Walk<G>, later: Walk<G>, gone: set<string>)
    requires s.refused <= later.refused && RefusalsGo(later, gone)
    ensures RefusalsGo(s, gone)
  {
    assert forall i :: 0 <= i < |s.refused| ==> s.refused[i] == later.refused[i];
  }

  lemma HarmlessOne<G(!new)>(w: World<G>, v: World<G>, s: Walk<G>, e: Event, orphansKept: bool, gone: set<string>)
    requires Later(w, v) && v.startup && Inert(w) && RefusalsGo(Adjudicate(w, s, e, orphansKept), gone) && e.id !in gone
    ensures Harmless(w, v, s.groups, e)
  {
    var t := Adjudicate(w, s, e, orphansKept);
    if !Authorized(w, s.groups, e) && t != s {
      assert t.refused[|s.refused|] == e;
    }
  }

  lemma HarmlessReleased<G(!new)>(w: World<G>, v: World<G>, s: Walk<G>, events: seq<Event>, gone: set<string>)
    requires Later(w, v) && v.startup && Inert(w) && RefusalsGo(AdjudicateAll(w, s, events), gone)
    ensures HarmlessJudged(w, v, s, events, gone)
  {
    forall j | 0 <= j < |events| && events[j].id !in gone
      ensures Harmless(w, v, AdjudicateAll(w, s, events[..j]).groups, events[j])
    {
      JudgingRefuses(w, s, events, j + 1);
      assert events[..j + 1][..j] == events[..j];
      RefusalsGoSooner(AdjudicateAll(w, s, events[..j + 1]), AdjudicateAll(w, s, events), gone);
      HarmlessOne(w, v, AdjudicateAll(w, s, events[..j]), events[j], false, gone);
    }
  }

  lemma HarmlessVisited<G(!new)>(w: World<G>, v: World<G>, s: Walk<G>, e: Event, gone: set<string>)
    requires Later(w, v) && v.startup && Inert(w) && Judges(w, s, e) && RefusalsGo(Visit(w, s, e), gone)
    ensures HarmlessDecided(w, v, s, e, gone)
  {
    VisitRefuses(w, s, e);
    RefusalsGoSooner(Adjudicate(w, s, e, true), Visit(w, s, e), gone);
    if e.id !in gone {
      HarmlessOne(w, v, s, e, true, gone);
    }
    if Releases(w, s.groups, e) {
      var gid := NonEmptyGroup(e).value;
      HarmlessReleased(w, v, Take(w, Adjudicate(w, s, e, true), gid), Of(s.held, gid, true), gone);
    }
  }

  lemma RefusalsAreHarmless<G(!new)>(w: World<G>, v: World<G>, events: seq<Event>, gone: set<string>)
    requires Later(w, v) && v.startup && Inert(w) && RefusalsGo(VisitAll(w, Start(w), events), gone)
    ensures HarmlessAll(w, v, events, gone)
  {
    forall i | 0 <= i < |events| && Judges(w, VisitAll(w, Start(w), events[..i]), events[i])
      ensures HarmlessDecided(w, v, VisitAll(w, Start(w), events[..i]), events[i], gone)
    {
      VisitingRefuses(w, Start(w), events, i + 1);
      assert events[..i + 1][..i] == events[..i];
      RefusalsGoSooner(VisitAll(w, Start(w), events[..i + 1]), VisitAll(w, Start(w), events), gone);
      HarmlessVisited(w, v, VisitAll(w, Start(w), events[..i]), events[i], gone);
    }
  }

  /** No join that some replay admitted and no request removed is refused by the
      last one. */
  ghost predicate AdmittedStand<G>(w: World<G>, p: Policy, t: Trace) {
    forall e :: e in Left(w, p, t) && e.id in Ids(Replay(w, History(t)).refused) ==> e.id !in Admitted(w, t)
  }

  lemma RefusedAreGone<G>(w: World<G>, p: Policy, t: Trace)
    requires !w.startup && Lawful(w, t) && AdmittedStand(w, p, t)
    ensures RefusalsGo(Replay(w, History(t)), Gone(w, p, t))
  {
    var s := Replay(w, History(t));
    ReplayFrom(w, History(t));
    forall i | 0 <= i < |s.refused| ensures s.refused[i].kind == DELETE_EVENT || s.refused[i].id in Gone(w, p, t) {
      assert Comes(History(t), s.refused[i]);
      var k :| 0 <= k < |History(t)| && SameButTags(History(t)[k], s.refused[i]);
      assert s.refused[i] in Undecided(s) && s.refused[i].id in Ids(s.refused);
      RefusedIsGone(w, p, t, s.refused[i], History(t)[k]);
    }
  }

  lemma RefusedIsGone<G>(w: World<G>, p: Policy, t: Trace, f: Event, e: Event)
    requires !w.startup && Lawful(w, t) && AdmittedStand(w, p, t) && e in Now(t) && SameButTags(e, f)
    requires f in Undecided(Replay(w, History(t))) && f.id in Ids(Replay(w, History(t)).refused)
    ensures f.kind == DELETE_EVENT || f.id in Gone(w, p, t)
  {
    if e.id in Applied(t) {
      AppliedLeftAreDeletions(w, t, e);
    } else if e.id !in Admitted(w, t) {
      assert f.kind != DELETE_EVENT ==> Drops(f, Applied(t), Admitted(w, t), {});
    } else if e.id !in Gone(w, p, t) {
      StaysIn(Now(t), Dropped(w, t), e);
      StaysIn(Remainder(w, t), Reached(p, Remainder(w, t)), e);
    }
  }

  /** The rebuild at startup, at any later time, trusts whatever is left; it
      derives the groups the migration authorised against, provided that the
      stored requests spare what the final replay accepted, that no admitted join
      was refused by it and kept, that both skip and strip alike, and that the
      caps on held events do not bind. */
  lemma RebuildAgrees<G(!new)>(w: World<G>, p: Policy, t: Trace, now: nat)
    requires !w.startup && w.now <= now && Inert(w) && Lawful(w, t) && Spared(w, p, t) && AdmittedStand(w, p, t)
    requires Roomy(w, Prepared(w, History(t)))
    requires AllAlike(w, Then(w, p, t, true, now), History(t), Gone(w, p, t))
    ensures Replay(Then(w, p, t, true, now), Moderations(Left(w, p, t))).groups == Replay(w, History(t)).groups
  {
    var v, gone := Then(w, p, t, true, now), Gone(w, p, t);
    LeftHistory(w, p, t);
    HistoryUnique(w, t);
    SparedExactly(w, p, t);
    RefusedAreGone(w, p, t);
    RefusalsAreHarmless(w, v, Prepared(w, History(t)), gone + Late(v, History(t)));
    ReplaysAgree(w, v, History(t), gone);
  }

  // ----- a kept refusal is applied -----

  ghost predicate AppliesKept<G>(s: Walk<G>, t: Walk<G>) {
    exists e :: e in t.accepted && e in s.refused && e.kind != DELETE_EVENT
  }

  lemma AppliesKeptLater<G>(s: Walk<G>, t: Walk<G>, s': Walk<G>, t': Walk<G>)
    requires AppliesKept(s, t) && s.refused <= s'.refused && t.accepted <= t'.accepted
    ensures AppliesKept(s', t')
  {
    var e :| e in t.accepted && e in s.refused && e.kind != DELETE_EVENT;
    var i :| 0 <= i < |t.accepted| && t.accepted[i] == e;
    var j :| 0 <= j < |s.refused| && s.refused[j] == e;
    assert t'.accepted[i] == e && s'.refused[j] == e;
  }

  lemma FirstKept<G>(w: World<G>, v: World<G>, s: Walk<G>, t: Walk<G>, e: Event, orphansKept: bool, gone: set<string>)
    requires Later(w, v) && v.startup && RefusalsGo(s, gone) && !RefusalsGo(Adjudicate(w, s, e, orphansKept), gone)
    ensures e.id !in gone && AppliesKept(Adjudicate(w, s, e, orphansKept), Adjudicate(v, t, e, orphansKept))
  {
    var s', t' := Adjudicate(w, s, e, orphansKept), Adjudicate(v, t, e, orphansKept);
    assert s'.refused == s.refused + [e];
    assert s'.refused[|s.refused|] == e && t'.accepted[|t.accepted|] == e;
  }

  lemma {:induction false} ReleasedKept<G>(
    w: World<G>, v: World<G>, s: Walk<G>, t: Walk<G>, events: seq<Event>, gone: set<string>)
    requires Later(w, v) && v.startup && RefusalsGo(s, gone) && !RefusalsGo(AdjudicateAll(w, s, events), gone)
    ensures AppliesKept(AdjudicateAll(w, s, events), AdjudicateAll(v, t, Without(events, gone)))
    decreases |events|
  {
    var prefix, e := events[..|events| - 1], events[|events| - 1];
    var s', t' := AdjudicateAll(w, s, prefix), AdjudicateAll(v, t, Without(prefix, gone));
    JudgeSnoc(v, t, Without(prefix, gone), e);
    if RefusalsGo(s', gone) {
      FirstKept(w, v, s', t', e, false, gone);
    } else {
      ReleasedKept(w, v, s, t, prefix, gone);
      AppliesKeptLater(s', t', Adjudicate(w, s', e, false), if e.id in gone then t' else Adjudicate(v, t', e, false));
    }
  }

  lemma JudgeSnoc<G>(v: World<G>, t: Walk<G>, events: seq<Event>, e: Event)
    ensures AdjudicateAll(v, t, events + [e]) == Adjudicate(v, AdjudicateAll(v, t, events), e, false)
  {
    assert (events + [e])[..|events|] == events;
  }

  lemma EarlierAccepted(before: seq<Event>, after: seq<Event>, gone: set<string>)
    requires before <= after && gone !! Ids(after)
    ensures gone !! Ids(before)
  {
    forall i | 0 <= i < |before| ensures before[i].id !in gone {
      assert after[i] == before[i];
    }
  }

  lemma DecidedKept<G>(w: World<G>, v: World<G>, s: Walk<G>, t: Walk<G>, e: Event, gone: set<string>)
    requires Later(w, v) && v.startup && Beside(w, v, s, t, gone) && RefusalsGo(s, gone)
    requires !RefusalsGo(Decide(w, s, e), gone)
    requires e.id in gone ==> !Authorized(w, s.groups, e)
    ensures e.id !in gone && AppliesKept(Decide(w, s, e), Decide(v, t, e))
  {
    if Authorized(w, s.groups, e) {
      var gid := NonEmptyGroup(e).value;
      OfWithout(s.held, gid, true, gone);
      var s', t' := Take(w, Adjudicate(w, s, e, true), gid), Take(v, Adjudicate(v, t, e, true), gid);
      ReleasedKept(w, v, s', t', Of(s.held, gid, true), gone);
    } else {
      FirstKept(w, v, s, t, e, true, gone);
      KeptSurvivesRelease(w, v, s, t, e);
    }
  }

  lemma KeptSurvivesRelease<G>(w: World<G>, v: World<G>, s: Walk<G>, t: Walk<G>, e: Event)
    requires !Authorized(w, s.groups, e) && AppliesKept(Adjudicate(w, s, e, true), Adjudicate(v, t, e, true))
    ensures AppliesKept(Decide(w, s, e), Decide(v, t, e))
  {
    var t' := Adjudicate(v, t, e, true);
    if Releases(v, t.groups, e) {
      var gid := NonEmptyGroup(e).value;
      var own := Of(t.held, gid, true);
      JudgingAdds(v, Take(v, t', gid), own, 0);
      assert AdjudicateAll(v, Take(v, t', gid), own[..0]) == Take(v, t', gid);
    }
    AppliesKeptLater(Adjudicate(w, s, e, true), t', Decide(w, s, e), Decide(v, t, e));
  }

  lemma {:induction false} KeptRefusalIsApplied<G(!new)>(
    w: World<G>, v: World<G>, events: seq<Event>, gone: set<string>)
    requires Later(w, v) && v.startup && Inert(w) && Roomy(w, events)
    requires gone !! Ids(VisitAll(w, Start(w), events).accepted) && !RefusalsGo(VisitAll(w, Start(w), events), gone)
    ensures AppliesKept(VisitAll(w, Start(w), events), VisitAll(v, Start(v), Without(events, gone)))
    decreases |events|
  {
    var prefix, e := events[..|events| - 1], events[|events| - 1];
    var s := VisitAll(w, Start(w), prefix);
    RoomyPrefix(w, events);
    VisitAdds(w, s, e);
    EarlierAccepted(s.accepted, VisitAll(w, Start(w), events).accepted, gone);
    if RefusalsGo(s, gone) {
      RefusalsAreHarmless(w, v, prefix, gone);
      BesideAll(w, v, prefix, gone);
      VisitedKept(w, v, s, VisitAll(v, Start(v), Without(prefix, gone)), e, gone);
      VisitSnoc(v, Without(prefix, gone), e);
    } else {
      KeptRefusalIsApplied(w, v, prefix, gone);
      KeptBefore(w, v, events, gone);
    }
  }

  lemma RoomyPrefix<G>(w: World<G>, events: seq<Event>)
    requires events != [] && Roomy(w, events)
    ensures
      var prefix, e := events[..|events| - 1], events[|events| - 1];
      Roomy(w, prefix) && RoomFor(w, VisitAll(w, Start(w), prefix), e)
  {
    var prefix := events[..|events| - 1];
    assert forall i :: 0 <= i < |prefix| ==> prefix[..i] == events[..i] && prefix[i] == events[i];
    assert events[..|prefix|] == prefix;
  }

  lemma VisitSnoc<G>(v: World<G>, events: seq<Event>, e: Event)
    ensures VisitAll(v, Start(v), events + [e]) == Visit(v, VisitAll(v, Start(v), events), e)
  {
    assert (events + [e])[..|events|] == events;
  }

  lemma KeptBefore<G>(w: World<G>, v: World<G>, events: seq<Event>, gone: set<string>)
    requires events != []
    requires
      var prefix := events[..|events| - 1];
      AppliesKept(VisitAll(w, Start(w), prefix), VisitAll(v, Start(v), Without(prefix, gone)))
    ensures AppliesKept(VisitAll(w, Start(w), events), VisitAll(v, Start(v), Without(events, gone)))
  {
    var prefix, e := events[..|events| - 1], events[|events| - 1];
    var left := Without(prefix, gone);
    var s, t := VisitAll(w, Start(w), prefix), VisitAll(v, Start(v), left);
    VisitRefuses(w, s, e);
    VisitSnoc(v, left, e);
    VisitAdds(v, t, e);
    AppliesKeptLater(s, t, Visit(w, s, e), if e.id in gone then t else Visit(v, t, e));
  }

  lemma VisitedKept<G>(w: World<G>, v: World<G>, s: Walk<G>, t: Walk<G>, e: Event, gone: set<string>)
    requires Later(w, v) && v.startup && Beside(w, v, s, t, gone) && RoomFor(w, s, e) && RefusalsGo(s, gone)
    requires gone !! Ids(Visit(w, s, e).accepted) && !RefusalsGo(Visit(w, s, e), gone)
    ensures e.id !in gone && AppliesKept(Visit(w, s, e), Visit(v, t, e))
  {
    assert !Early(w, s.groups, e);
    assert e.id in gone ==> !Authorized(w, s.groups, e) by {
      if Authorized(w, s.groups, e) {
        AuthorizedIsAccepted(w, s, e);
      }
    }
    DecidedKept(w, v, s, t, e, gone);
  }

  /** The rebuild applies an event the final replay refused, the kind:9005s
      aside, if and only if some admitted join that is left is among the refused. */
  lemma RebuildTrustsExactly<G(!new)>(w: World<G>, p: Policy, t: Trace, now: nat)
    requires !w.startup && w.now <= now && Inert(w) && Lawful(w, t) && Spared(w, p, t)
    requires Roomy(w, Prepared(w, History(t)))
    requires AllAlike(w, Then(w, p, t, true, now), History(t), Gone(w, p, t))
    ensures AdmittedStand(w, p, t) <==>
      !AppliesKept(Replay(w, History(t)), Replay(Then(w, p, t, true, now), Moderations(Left(w, p, t))))
  {
    var v, gone := Then(w, p, t, true, now), Gone(w, p, t);
    LeftHistory(w, p, t);
    HistoryUnique(w, t);
    SparedExactly(w, p, t);
    PreparedExactly(w, v, History(t), gone);
    LateAreRefused(w, v, History(t));
    if AdmittedStand(w, p, t) {
      RefusedAreGone(w, p, t);
      NoneKept(w, v, History(t), gone);
    } else {
      KeptIsRefused(w, p, t, v);
      KeptRefusalIsApplied(w, v, Prepared(w, History(t)), gone + Late(v, History(t)));
    }
  }

  lemma NoneKept<G>(w: World<G>, v: World<G>, history: seq<Event>, gone: set<string>)
    requires RefusalsGo(Replay(w, history), gone)
    ensures !AppliesKept(Replay(w, history), Replay(v, Without(history, gone)))
  {
    var s, r, left := Replay(w, history), Replay(v, Without(history, gone)), Without(history, gone);
    ReplayFrom(v, left);
    forall e | e in r.accepted && e in s.refused ensures e.kind == DELETE_EVENT {
      var i :| 0 <= i < |r.accepted| && r.accepted[i] == e;
      var j :| 0 <= j < |s.refused| && s.refused[j] == e;
      assert Comes(left, r.accepted[i]);
      var k :| 0 <= k < |left| && SameButTags(left[k], e);
      assert left[k].id !in gone;
    }
  }

  lemma {:induction false} Sooner<G>(w: World<G>, u: Trace, t: Trace, e: Event)
    requires Lawful(w, t) && Within(u, t) && e in Now(t)
    ensures Lawful(w, u) && e in Now(u)
  {
    if u != t {
      assert e in Now(t.before) by {
        if t.Acted? {
          ComesFrom(Now(t.before), RemovedBy(Now(t.before), t.action), e);
        } else if t.Swept? {
          ComesFrom(Now(t.before), Recreates(Now(t.before), t.gid), e);
        }
      }
      Sooner(w, u, t.before, e);
    }
  }

  lemma JoinIsTimely<G>(w: World<G>, stored: seq<Event>, e: Event)
    requires !w.startup && UniqueIds(stored) && e in stored && e.id in Joins(Accepts(w, stored))
    ensures e.kind == JOIN && !FutureDated(w, e)
  {
    var accepted, history := Accepts(w, stored), Moderations(stored);
    var i :| 0 <= i < |accepted| && accepted[i].kind == JOIN && accepted[i].id == e.id;
    AcceptedAdmissible(w, Prepared(w, history));
    ReplayFrom(w, history);
    assert Comes(history, accepted[i]);
    var k :| 0 <= k < |history| && SameButTags(history[k], accepted[i]);
    UniqueEvent(stored, history[k], e);
  }

  lemma AdmittedAreTimely<G>(w: World<G>, t: Trace, e: Event)
    requires !w.startup && Lawful(w, t) && e in Now(t) && e.id in Admitted(w, t)
    ensures e.kind == JOIN && !FutureDated(w, e)
  {
    AdmittedWereAccepted(w, t, e.id);
    var u :| Within(u, t) && e.id in Joins(Accepts(w, Now(u)));
    Sooner(w, u, t, e);
    NowUnique(w, u);
    JoinIsTimely(w, Now(u), e);
  }

  lemma LeftIsKept<G>(w: World<G>, p: Policy, t: Trace, v: World<G>, e: Event)
    requires Later(w, v) && Lawful(w, t) && e in Left(w, p, t) && e.id in Admitted(w, t)
    ensures e in Now(t) && e.kind == JOIN && e.id !in Gone(w, p, t) + Late(v, History(t))
  {
    ComesFrom(Remainder(w, t), Reached(p, Remainder(w, t)), e);
    ComesFrom(Now(t), Dropped(w, t), e);
    AdmittedAreTimely(w, t, e);
    HistoryUnique(w, t);
    var k :| 0 <= k < |Now(t)| && Now(t)[k] == e;
    LateExactly(v, History(t), e);
  }

  lemma KeptIsRefused<G>(w: World<G>, p: Policy, t: Trace, v: World<G>)
    requires Later(w, v) && Lawful(w, t) && !AdmittedStand(w, p, t)
    ensures !RefusalsGo(Replay(w, History(t)), Gone(w, p, t) + Late(v, History(t)))
  {
    var e :| e in Left(w, p, t) && e.id in Ids(Replay(w, History(t)).refused) && e.id in Admitted(w, t);
    LeftIsKept(w, p, t, v, e);
    RefusedKind(w, t, e);
  }

  lemma RefusedKind<G>(w: World<G>, t: Trace, e: Event)
    requires Lawful(w, t) && e in Now(t) && e.id in Ids(Replay(w, History(t)).refused)
    ensures
      var refused := Replay(w, History(t)).refused;
      exists i :: 0 <= i < |refused| && refused[i].id == e.id && refused[i].kind == e.kind
  {
    var refused := Replay(w, History(t)).refused;
    var i :| 0 <= i < |refused| && refused[i].id == e.id;
    NowUnique(w, t);
    ReplayFrom(w, History(t));
    assert Comes(History(t), refused[i]);
    SameKind(Now(t), refused[i], e);
  }
}
