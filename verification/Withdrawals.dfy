/** Requests applied after the moderation: an author deletes a join, or vanishes,
    and what the replays derived from it is gone; and a deletion dated ahead of
    the clock, which a later run authorises. */
module Withdrawals {
  import opened Text
  import opened Events
  import opened EventLists
  import opened Moderation
  import opened ReplayOrder
  import opened GroupActions
  import opened Traces
  import opened Replays
  import opened Requests
  import opened Aftermath
  import opened SmallStore
  import opened Witnesses

  // ----- a migration with one request -----

  /** Two moderation events and a request, nothing refused and nothing to do. */
  lemma OneRequest<G>(w: World<G>, a: Event, b: Event, r: Event)
    requires a.id != b.id && a.id != r.id && b.id != r.id
    requires IsGroupKind(a.kind) && IsGroupKind(b.kind) && !IsGroupKind(r.kind) && !IsAction(a) && !IsAction(b)
    requires Replay(w, [a, b]).refused == [] && Replay(w, [a, b]).held == []
    ensures
      var t := Passed(Begin([a, b, r]));
      && Lawful(w, t) && History(t) == [a, b] && Applied(t) == {} && Remainder(w, t) == [a, b, r] && Dropped(w, t) == {}
      && Stable(w, History(t), Applied(t))
  {
    var stored := [a, b, r];
    assert [a, b] + [r] == stored;
    ModerationsOfTwo(a, b);
    ModerationsSnoc([a, b], r);
    NoActions(w, [a, b]);
    DropsNothing(w, stored);
    AllDecided(Replay(w, [a, b]), {}, Joins(Accepts(w, stored)));
    NothingToDo(w, stored);
  }

  /** What the request leaves of the moderation, when it reaches one of the two. */
  lemma OnlyFirstLeft<G>(w: World<G>, p: Policy, t: Trace, a: Event, b: Event)
    requires History(t) == [a, b] && a.id !in Gone(w, p, t) && b.id in Gone(w, p, t)
    ensures Moderations(Left(w, p, t)) == [a]
  {
    var gone := Gone(w, p, t);
    LeftHistory(w, p, t);
    assert [a] + [b] + [] == [a, b];
    WithoutOnly([a], b, [], gone);
  }

  lemma BothLeft<G>(w: World<G>, p: Policy, t: Trace, a: Event, b: Event)
    requires History(t) == [a, b] && a.id !in Gone(w, p, t) && b.id !in Gone(w, p, t)
    ensures Moderations(Left(w, p, t)) == [a, b]
  {
    LeftHistory(w, p, t);
    WithoutNothing([a, b], Gone(w, p, t));
  }

  /** Who a request of three stored events reaches. */
  lemma ReachedOfThree(p: Policy, a: Event, b: Event, r: Event)
    requires a.id != b.id && a.id != r.id && b.id != r.id && IsGroupKind(a.kind) && IsGroupKind(b.kind)
    ensures a.id in Reached(p, [a, b, r]) <==> Withdraws(p, r, a)
    ensures b.id in Reached(p, [a, b, r]) <==> Withdraws(p, r, b)
  {
    var stored := [a, b, r];
    assert a in stored && b in stored && r in stored;
    forall x | x in stored ensures !Withdraws(p, a, x) && !Withdraws(p, b, x) {
    }
    forall x | x in stored ensures x == a || x == b || x == r {
    }
  }

  // ----- the author of a join deletes it -----

  /** A group, a join and a kind:5 by which the author of the join withdraws it. */
  ghost predicate TakesBack(p: Policy, create: Event, join: Event, request: Event) {
    && Sent(create, CREATE_GROUP, "g") && Sent(join, JOIN, "g") && request.kind == DELETION_KIND
    && Withdraws(p, request, join) && !Withdraws(p, request, create) && join.pubkey != create.pubkey
    && create.id != join.id && create.id != request.id && join.id != request.id
  }

  lemma NoneVanishes(p: Policy, create: Event, join: Event, request: Event)
    requires TakesBack(p, create, join, request)
    ensures Vanishing(p, [create, join, request]) == {}
  {
    forall r | r in [create, join, request] ensures r.kind != VANISH_KIND {
    }
  }

  lemma CreateReplay(v: World<Groups>, create: Event)
    requires IsSmall(v) && v.vanished == {} && Sent(create, CREATE_GROUP, "g")
    ensures Replay(v, [create]).groups == map["g" := Founded(create)]
  {
    FoundedAt(v, create, "g");
    QuietAt(v, [create], Begun(create, "g"));
  }

  /** The join was accepted and is reached; the create is not. */
  lemma JoinIsReached<G>(w: World<G>, p: Policy, t: Trace, create: Event, join: Event, request: Event)
    requires TakesBack(p, create, join, request) && Remainder(w, t) == [create, join, request] && Dropped(w, t) == {}
    requires History(t) == [create, join] && Replay(w, History(t)).accepted == [create, join]
    ensures Moderations(Left(w, p, t)) == [create] && !Spared(w, p, t)
  {
    ReachedOfThree(p, create, join, request);
    OnlyFirstLeft(w, p, t, create, join);
    assert Replay(w, History(t)).accepted[1].id in Ids(Replay(w, History(t)).accepted);
  }

  lemma SameVanished<G>(w: World<G>, p: Policy, t: Trace, create: Event, join: Event, request: Event)
    requires TakesBack(p, create, join, request) && Remainder(w, t) == [create, join, request]
    ensures forall startup, now :: Then(w, p, t, startup, now) == w.(startup := startup, now := now)
  {
    NoneVanishes(p, create, join, request);
    assert w.vanished + {} == w.vanished;
  }

  lemma JoinAtFirst(w: World<Groups>, create: Event, join: Event)
    requires IsFirst(w) && Sent(create, CREATE_GROUP, "g") && Sent(join, JOIN, "g")
    ensures
      var s := Replay(w, [create, join]);
      && s.accepted == [create, join] && s.refused == [] && s.held == [] && Member(s.groups, "g", join.pubkey)
      && Roomy(w, Prepared(w, [create, join])) && Quiet(w, [create, join])
      && !FutureDated(w, create) && !FutureDated(w, join)
  {
    JoinReplay(w, create, join);
  }

  lemma TakenBack(w: World<Groups>, p: Policy, create: Event, join: Event, request: Event)
    requires IsFirst(w) && TakesBack(p, create, join, request)
    ensures
      var t := Passed(Begin([create, join, request]));
      && Lawful(w, t) && History(t) == [create, join] && Applied(t) == {} && Stable(w, History(t), Applied(t))
      && Moderations(Left(w, p, t)) == [create] && !Spared(w, p, t)
      && forall startup, now :: Then(w, p, t, startup, now) == w.(startup := startup, now := now)
  {
    JoinAtFirst(w, create, join);
    OneRequest(w, create, join, request);
    JoinIsReached(w, p, Passed(Begin([create, join, request])), create, join, request);
    SameVanished(w, p, Passed(Begin([create, join, request])), create, join, request);
  }

  /** Everything a second run or the rebuild needs holds but that the accepted
      events are spared. */
  ghost predicate AllButSpared<G(!new)>(w: World<G>, p: Policy, t: Trace, startup: bool, now: nat) {
    var v := Then(w, p, t, startup, now);
    && Inert(w) && Lawful(w, t) && Stable(w, History(t), Applied(t)) && Roomy(w, Prepared(w, History(t)))
    && AdmittedStand(w, p, t) && NoneComeOfAge(w, v, History(t), Gone(w, p, t))
    && AllAlike(w, v, History(t), Gone(w, p, t)) && !Spared(w, p, t)
  }

  lemma ButSpared<G(!new)>(w: World<G>, p: Policy, t: Trace, startup: bool, now: nat)
    requires !w.startup && Inert(w) && Lawful(w, t) && Stable(w, History(t), Applied(t)) && !Spared(w, p, t)
    requires Roomy(w, Prepared(w, History(t))) && Replay(w, History(t)).refused == [] && Quiet(w, History(t))
    requires Then(w, p, t, startup, now) == w.(startup := startup, now := now)
    requires forall i :: 0 <= i < |History(t)| ==> !FutureDated(w, History(t)[i])
    ensures AllButSpared(w, p, t, startup, now)
  {
    var v := Then(w, p, t, startup, now);
    NoneRefused(w, p, t);
    NoneFuture(w, v, History(t), Gone(w, p, t));
    QuietIsAlike(w, v, History(t), Gone(w, p, t));
  }

  lemma TakenBackConditions(
    w: World<Groups>, p: Policy, t: Trace, create: Event, join: Event, startup: bool, now: nat)
    requires IsFirst(w) && Sent(create, CREATE_GROUP, "g") && Sent(join, JOIN, "g") && History(t) == [create, join]
    requires Lawful(w, t) && Stable(w, History(t), Applied(t)) && !Spared(w, p, t)
    requires Then(w, p, t, startup, now) == w.(startup := startup, now := now)
    ensures AllButSpared(w, p, t, startup, now) && Member(Replay(w, History(t)).groups, "g", join.pubkey)
  {
    JoinAtFirst(w, create, join);
    SmallIsInert(w);
    ButSpared(w, p, t, startup, now);
  }

  lemma OnlyFounder(w: World<Groups>, create: Event, pubkey: string, startup: bool, now: nat)
    requires IsFirst(w) && w.now <= now && Sent(create, CREATE_GROUP, "g") && pubkey != create.pubkey
    ensures !Member(Replay(w.(startup := startup, now := now), [create]).groups, "g", pubkey)
  {
    CreateReplay(w.(startup := startup, now := now), create);
  }

  /** A member deletes the join that made them one: the final replay accepted it,
      and neither a second run nor the rebuild has it. */
  lemma AuthorDeletesJoin(
    w: World<Groups>, p: Policy, create: Event, join: Event, request: Event, startup: bool, now: nat)
    requires IsFirst(w) && TakesBack(p, create, join, request) && w.now <= now && Sorted(w.arrived, [create, join])
    ensures
      var t := Passed(Begin([create, join, request]));
      && AllButSpared(w, p, t, startup, now) && Member(Replay(w, History(t)).groups, "g", join.pubkey)
      && !Member(Replay(Then(w, p, t, startup, now), Moderations(Left(w, p, t))).groups, "g", join.pubkey)
  {
    TakenBack(w, p, create, join, request);
    TakenBackConditions(w, p, Passed(Begin([create, join, request])), create, join, startup, now);
    OnlyFounder(w, create, join.pubkey, startup, now);
  }

  lemma SuchTakesBack(p: Policy)
    ensures
      var create := Event("1", "alice", 1, CREATE_GROUP, [["h", "g"]], "", "");
      var join := Event("2", "bob", 2, JOIN, [["h", "g"]], "", "");
      var request := Event("3", "bob", 3, DELETION_KIND, [["e", "2"]], "", "");
      TakesBack(p, create, join, request) && Sorted(map[], [create, join])
  {
    var create := Event("1", "alice", 1, CREATE_GROUP, [["h", "g"]], "", "");
    var join := Event("2", "bob", 2, JOIN, [["h", "g"]], "", "");
    var request := Event("3", "bob", 3, DELETION_KIND, [["e", "2"]], "", "");
    AddressesMissModeration("bob", request.tags, 3, create);
    assert request.tags[0][1] == "2";
    assert Lower("2")[0] == '2' && Lower("1")[0] == '1';
  }

  // ----- a granted member vanishes -----

  /** A group, a grant, and a vanish of the member it names. */
  ghost predicate VanishesAfter(p: Policy, create: Event, grant: Event, vanish: Event, pubkey: string) {
    && Sent(create, CREATE_GROUP, "g") && Sent(grant, PUT_USER, "g") && grant.tags == [["h", "g"], ["p", pubkey]]
    && grant.pubkey == create.pubkey && vanish.kind == VANISH_KIND && p.honours(vanish)
    && !EqIgnoreCase(create.pubkey, vanish.pubkey) && pubkey in Spellings(vanish.pubkey)
    && create.pubkey !in Spellings(vanish.pubkey) && pubkey != create.pubkey
    && create.id != grant.id && create.id != vanish.id && grant.id != vanish.id
  }

  lemma GrantTags<G>(v: World<G>, pubkey: string)
    ensures WithoutVanished(v, [["h", "g"], ["p", pubkey]])
      == if pubkey in v.vanished then [["h", "g"]] else [["h", "g"], ["p", pubkey]]
  {
    var tags := [["h", "g"], ["p", pubkey]];
    assert tags[1..] == [["p", pubkey]] && tags[1..][1..] == [];
    assert WithoutVanished(v, []) == [];
    assert [["h", "g"]] + [["p", pubkey]] == tags;
  }

  lemma GrantPrepared<G>(v: World<G>, create: Event, grant: Event, pubkey: string)
    requires create.kind == CREATE_GROUP && grant.kind == PUT_USER && grant.tags == [["h", "g"], ["p", pubkey]]
    requires !IsLate(v, create) && !IsLate(v, grant)
    ensures Prepared(v, [create, grant]) ==
      [create, grant.(tags := if pubkey in v.vanished then [["h", "g"]] else [["h", "g"], ["p", pubkey]])]
  {
    var history := [create, grant];
    assert [create] + [grant] == history;
    GrantTags(v, pubkey);
    PrepareSnoc(v, history, [create], grant);
    AllPrepared(v, history, [create]);
  }

  /** A grant makes members of exactly the keys it names. */
  lemma GrantVisited(v: World<Groups>, create: Event, grant: Event)
    requires IsSmall(v) && Sent(create, CREATE_GROUP, "g") && Sent(grant, PUT_USER, "g")
    requires grant.pubkey == create.pubkey
    ensures
      var s := VisitAll(v, Start(v), [create, grant]);
      && s.accepted == [create, grant] && s.refused == [] && s.held == [] && Roomy(v, [create, grant])
      && "g" in s.groups && s.groups["g"].members == {create.pubkey} + Named(grant.tags)
  {
    SecondAt(v, create, grant, "g");
    var s1 := Begun(create, "g");
    AdminAccepted(v, s1, grant, "g");
  }

  lemma NamedOnly(pubkey: string)
    ensures Named([["h", "g"]]) == {} && Named([["h", "g"], ["p", pubkey]]) == {pubkey}
  {
    assert [["h", "g"], ["p", pubkey]][1] == ["p", pubkey];
  }

  lemma GrantReplay(v: World<Groups>, create: Event, grant: Event, pubkey: string)
    requires IsSmall(v) && Sent(create, CREATE_GROUP, "g") && Sent(grant, PUT_USER, "g")
    requires grant.pubkey == create.pubkey != pubkey && grant.tags == [["h", "g"], ["p", pubkey]]
    ensures
      var s := Replay(v, [create, grant]);
      && s.refused == [] && s.held == [] && Roomy(v, Prepared(v, [create, grant]))
      && (Member(s.groups, "g", pubkey) <==> pubkey !in v.vanished)
  {
    var judged := grant.(tags := if pubkey in v.vanished then [["h", "g"]] else [["h", "g"], ["p", pubkey]]);
    GrantPrepared(v, create, grant, pubkey);
    GrantVisited(v, create, judged);
    NamedOnly(pubkey);
  }

  lemma VanishLeaves(w: World<Groups>, p: Policy, create: Event, grant: Event, vanish: Event, pubkey: string)
    requires IsFirst(w) && VanishesAfter(p, create, grant, vanish, pubkey)
    ensures
      var t := Passed(Begin([create, grant, vanish]));
      && Lawful(w, t) && History(t) == [create, grant] && Applied(t) == {} && Stable(w, History(t), Applied(t))
      && Moderations(Left(w, p, t)) == [create, grant] && pubkey in Vanishing(p, Remainder(w, t))
      && create.id !in Gone(w, p, t) && grant.id !in Gone(w, p, t)
  {
    var stored := [create, grant, vanish];
    var t := Passed(Begin(stored));
    GrantReplay(w, create, grant, pubkey);
    OneRequest(w, create, grant, vanish);
    ReachedOfThree(p, create, grant, vanish);
    assert stored[2] == vanish && vanish in stored;
    BothLeft(w, p, t, create, grant);
  }

  lemma SparedTwo<G>(w: World<G>, p: Policy, t: Trace, a: Event, b: Event)
    requires History(t) == [a, b] && a.id !in Gone(w, p, t) && b.id !in Gone(w, p, t)
    ensures Spared(w, p, t)
  {
    var accepted := Replay(w, History(t)).accepted;
    ReplayFrom(w, History(t));
    forall i | 0 <= i < |accepted| ensures accepted[i].id !in Reached(p, Remainder(w, t)) {
      assert Comes(History(t), accepted[i]);
      assert accepted[i].id == a.id || accepted[i].id == b.id;
    }
  }

  lemma VanishedMember(
    w: World<Groups>, p: Policy, t: Trace, create: Event, grant: Event, pubkey: string, startup: bool, now: nat)
    requires IsFirst(w) && w.now <= now && Sent(create, CREATE_GROUP, "g") && Sent(grant, PUT_USER, "g")
    requires grant.pubkey == create.pubkey != pubkey && grant.tags == [["h", "g"], ["p", pubkey]]
    requires pubkey in Vanishing(p, Remainder(w, t))
    ensures !Member(Replay(Then(w, p, t, startup, now), [create, grant]).groups, "g", pubkey)
  {
    GrantReplay(Then(w, p, t, startup, now), create, grant, pubkey);
  }

  /** Everything a second run or the rebuild needs holds but skipping and
      stripping alike. */
  ghost predicate AllButAlike<G(!new)>(w: World<G>, p: Policy, t: Trace, startup: bool, now: nat) {
    if startup then RebuildButAlike(w, p, t, now) else RerunButAlike(w, p, t, now)
  }

  lemma ButAlike<G(!new)>(w: World<G>, p: Policy, t: Trace, startup: bool, now: nat)
    requires !w.startup && w.now <= now && Inert(w) && Lawful(w, t) && Stable(w, History(t), Applied(t))
    requires Spared(w, p, t) && Roomy(w, Prepared(w, History(t))) && Replay(w, History(t)).refused == []
    requires forall i :: 0 <= i < |History(t)| ==> !FutureDated(w, History(t)[i])
    requires Replay(Then(w, p, t, startup, now), Moderations(Left(w, p, t))).groups != Replay(w, History(t)).groups
    ensures AllButAlike(w, p, t, startup, now)
  {
    NoneRefused(w, p, t);
    NoneFuture(w, Then(w, p, t, startup, now), History(t), Gone(w, p, t));
    if startup {
      RebuildSkipsDiffer(w, p, t, now);
    } else {
      RerunSkipsDiffer(w, p, t, now);
    }
  }

  /** A member who was granted and asks to vanish: the migration completes the
      vanish after its moderation, so the grant is stripped from then on. */
  lemma VanishStripsGrant(
    w: World<Groups>, p: Policy, create: Event, grant: Event, vanish: Event, pubkey: string, startup: bool, now: nat)
    requires IsFirst(w) && VanishesAfter(p, create, grant, vanish, pubkey) && w.now <= now
    requires Sorted(w.arrived, [create, grant])
    ensures
      var t := Passed(Begin([create, grant, vanish]));
      && AllButAlike(w, p, t, startup, now) && Member(Replay(w, History(t)).groups, "g", pubkey)
      && !Member(Replay(Then(w, p, t, startup, now), Moderations(Left(w, p, t))).groups, "g", pubkey)
  {
    var t := Passed(Begin([create, grant, vanish]));
    VanishLeaves(w, p, create, grant, vanish, pubkey);
    VanishConditions(w, p, t, create, grant, pubkey, startup, now);
  }

  lemma VanishConditions(
    w: World<Groups>, p: Policy, t: Trace, create: Event, grant: Event, pubkey: string, startup: bool, now: nat)
    requires IsFirst(w) && w.now <= now && Sent(create, CREATE_GROUP, "g") && Sent(grant, PUT_USER, "g")
    requires grant.pubkey == create.pubkey != pubkey && grant.tags == [["h", "g"], ["p", pubkey]]
    requires pubkey in Vanishing(p, Remainder(w, t)) && Lawful(w, t) && Stable(w, History(t), Applied(t))
    requires History(t) == Moderations(Left(w, p, t)) == [create, grant]
    requires create.id !in Gone(w, p, t) && grant.id !in Gone(w, p, t)
    ensures AllButAlike(w, p, t, startup, now) && Member(Replay(w, History(t)).groups, "g", pubkey)
    ensures !Member(Replay(Then(w, p, t, startup, now), Moderations(Left(w, p, t))).groups, "g", pubkey)
  {
    GrantReplay(w, create, grant, pubkey);
    VanishedMember(w, p, t, create, grant, pubkey, startup, now);
    SparedTwo(w, p, t, create, grant);
    SmallIsInert(w);
    ButAlike(w, p, t, startup, now);
  }

  lemma SuchVanish(p: Policy)
    requires forall e :: p.honours(e)
    ensures
      var create := Event("1", "alice", 1, CREATE_GROUP, [["h", "g"]], "", "");
      var grant := Event("2", "alice", 2, PUT_USER, [["h", "g"], ["p", "bob"]], "", "");
      var vanish := Event("3", "bob", 3, VANISH_KIND, [["relay", "ALL_RELAYS"]], "", "");
      VanishesAfter(p, create, grant, vanish, "bob") && Sorted(map[], [create, grant])
  {
    assert |Lower("alice")| == 5 && |Upper("bob")| == 3 && |Lower("bob")| == 3;
    assert Lower("bob") == "bob";
  }

  // ----- a deletion dated ahead of the clock -----

  /** A group, and its founder's deletion dated ahead of the migration's clock. */
  ghost predicate AheadOfTime(w: World<Groups>, create: Event, deletion: Event) {
    && Sent(create, CREATE_GROUP, "g") && deletion.kind == DELETE_EVENT && GroupId(deletion) == Some("g")
    && deletion.pubkey == create.pubkey && FutureDated(w, deletion) && create.id != deletion.id
  }

  lemma DeletionVisited(v: World<Groups>, create: Event, deletion: Event)
    requires IsSmall(v) && !v.startup && Sent(create, CREATE_GROUP, "g") && deletion.kind == DELETE_EVENT
    requires GroupId(deletion) == Some("g") && deletion.pubkey == create.pubkey
    ensures
      var s := VisitAll(v, Start(v), [create, deletion]);
      && s.held == [] && Roomy(v, [create, deletion])
      && s.accepted == (if FutureDated(v, deletion) then [create] else [create, deletion])
      && s.refused == (if FutureDated(v, deletion) then [deletion] else [])
  {
    var s1 := Begun(create, "g");
    SecondAt(v, create, deletion, "g");
    DeletionJudged(v, s1, deletion);
  }

  lemma DeletionJudged(v: World<Groups>, s: Walk<Groups>, deletion: Event)
    requires IsSmall(v) && !v.startup && deletion.kind == DELETE_EVENT && GroupId(deletion) == Some("g")
    requires "g" in s.groups && deletion.pubkey in s.groups["g"].admins
    ensures Adjudicate(v, s, deletion, true) ==
      if FutureDated(v, deletion) then s.(refused := s.refused + [deletion])
      else s.(accepted := s.accepted + [deletion])
  {
  }

  lemma DeletionReplay(v: World<Groups>, create: Event, deletion: Event)
    requires IsSmall(v) && !v.startup && v.vanished == {} && Sent(create, CREATE_GROUP, "g")
    requires deletion.kind == DELETE_EVENT && GroupId(deletion) == Some("g") && deletion.pubkey == create.pubkey
    ensures
      var s := Replay(v, [create, deletion]);
      && s.held == [] && Roomy(v, Prepared(v, [create, deletion])) && Quiet(v, [create, deletion])
      && s.accepted == (if FutureDated(v, deletion) then [create] else [create, deletion])
      && s.refused == (if FutureDated(v, deletion) then [deletion] else [])
  {
    DeletionVisited(v, create, deletion);
    QuietPrepared(v, [create, deletion]);
  }

  lemma KeptDeletion<G>(w: World<G>, create: Event, deletion: Event)
    requires create.id != deletion.id && create.kind == CREATE_GROUP && deletion.kind == DELETE_EVENT
    requires Replay(w, [create, deletion]).accepted == [create] && Replay(w, [create, deletion]).refused == [deletion]
    requires Replay(w, [create, deletion]).held == []
    ensures
      var t := Passed(Begin([create, deletion]));
      && Lawful(w, t) && Now(t) == History(t) == [create, deletion] && Applied(t) == {}
      && Stable(w, History(t), Applied(t)) && Remainder(w, t) == [create, deletion]
  {
    ModerationsOfTwo(create, deletion);
    WithoutNothing([create, deletion], {});
    DropsFrom(w, [create, deletion], deletion, [create, deletion]);
  }

  /** Everything a second run needs holds but that no kept event comes of age. */
  ghost predicate RerunButAge<G>(w: World<G>, p: Policy, t: Trace, now: nat) {
    var v := Then(w, p, t, false, now);
    && Lawful(w, t) && Stable(w, History(t), Applied(t)) && Roomy(w, Prepared(w, History(t))) && Spared(w, p, t)
    && AllAlike(w, v, History(t), Gone(w, p, t)) && !NoneComeOfAge(w, v, History(t), Gone(w, p, t))
  }

  lemma RerunAges<G>(w: World<G>, p: Policy, t: Trace, deletion: Event, now: nat)
    requires !w.startup && Lawful(w, t) && Stable(w, History(t), Applied(t)) && Roomy(w, Prepared(w, History(t)))
    requires Remainder(w, t) == Now(t) == History(t) && Quiet(w, History(t)) && deletion in History(t)
    requires FutureDated(w, deletion) && deletion.createdAt <= now + FUTURE_SECS
    ensures RerunButAge(w, p, t, now) && Moderations(Left(w, p, t)) == History(t)
    ensures Then(w, p, t, false, now) == w.(startup := false, now := now)
  {
    var v := Then(w, p, t, false, now);
    OnlyModeration(p, Now(t));
    NothingRequested(w, p, t, false, now);
    QuietIsAlike(w, v, History(t), Gone(w, p, t));
    LeftHistory(w, p, t);
    assert deletion in Without(History(t), Gone(w, p, t));
  }

  /** A deletion dated too far ahead is refused but kept; once the clock has
      caught up, a second run authorises it. */
  lemma ClockAuthorises(w: World<Groups>, p: Policy, create: Event, deletion: Event, now: nat)
    requires IsFirst(w) && AheadOfTime(w, create, deletion) && deletion.createdAt <= now + FUTURE_SECS
    requires Sorted(w.arrived, [create, deletion])
    ensures
      var t := Passed(Begin([create, deletion]));
      && RerunButAge(w, p, t, now) && deletion !in Replay(w, History(t)).accepted
      && deletion in Replay(Then(w, p, t, false, now), Moderations(Left(w, p, t))).accepted
  {
    var t := Passed(Begin([create, deletion]));
    DeletionReplay(w, create, deletion);
    KeptDeletion(w, create, deletion);
    assert History(t)[1] == deletion;
    RerunAges(w, p, t, deletion, now);
    LaterDeletion(w, create, deletion, now);
  }

  lemma LaterDeletion(w: World<Groups>, create: Event, deletion: Event, now: nat)
    requires IsFirst(w) && AheadOfTime(w, create, deletion) && deletion.createdAt <= now + FUTURE_SECS
    ensures deletion in Replay(w.(startup := false, now := now), [create, deletion]).accepted
  {
    var v := w.(startup := false, now := now);
    DeletionReplay(v, create, deletion);
    assert Replay(v, [create, deletion]).accepted[1] == deletion;
  }

  lemma SuchAhead(w: World<Groups>)
    requires IsFirst(w) && w.arrived == map[]
    ensures
      var create := Event("1", "alice", 1, CREATE_GROUP, [["h", "g"]], "", "");
      var deletion := Event("2", "alice", w.now + FUTURE_SECS + 1, DELETE_EVENT, [["h", "g"]], "", "");
      AheadOfTime(w, create, deletion) && Sorted(w.arrived, [create, deletion])
  {
  }
}
