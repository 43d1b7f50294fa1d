/** Histories showing that a later replay must skip alike for the results about a
    migration's aftermath: every other condition holds, and the outcome differs. */
module Witnesses {
  import opened Text
  import opened Events
  import opened EventLists
  import opened Moderation
  import opened ReplayOrder
  import opened GroupActions
  import opened Traces
  import opened Replays
  import opened Requests
  import opened Aftermath
  import opened SmallStore

  /** A create and a join: the author of the join is a member. */
  lemma JoinReplay(v: World<Groups>, create: Event, join: Event)
    requires IsSmall(v) && Sent(create, CREATE_GROUP, "g") && Sent(join, JOIN, "g") && Quiet(v, [create, join])
    ensures
      var s := Replay(v, [create, join]);
      && s.accepted == [create, join] && s.refused == [] && s.held == [] && Member(s.groups, "g", join.pubkey)
      && Roomy(v, Prepared(v, [create, join]))
  {
    QuietPrepared(v, [create, join]);
    SecondAt(v, create, join, "g");
    var s1 := Begun(create, "g");
    JoinAccepted(v, s1, join, "g");
  }

  // ----- a dropped removal, and arrival numbers -----

  /** A group, and a removal and a join of its member in one second. */
  ghost predicate Removal(create: Event, removal: Event, join: Event) {
    && Sent(create, CREATE_GROUP, "g") && Sent(removal, REMOVE_USER, "g") && Sent(join, JOIN, "g")
    && removal.createdAt == join.createdAt && HasTag(removal.tags, "p", join.pubkey)
    && create.id != removal.id && create.id != join.id && removal.id != join.id
  }

  lemma RemovalSuppresses(w: World<Groups>, create: Event, removal: Event, join: Event)
    requires IsFirst(w) && Removal(create, removal, join)
    ensures Prepared(w, [create, removal, join]) == [create, removal]
  {
    var history := [create, removal, join];
    assert Removes(history[1], join);
    assert [create, removal] + [join] == history;
    PrepareSnoc(w, history, [create, removal], join);
    AllPrepared(w, history, [create, removal]);
  }

  /** A stranger's removal is refused; */
  lemma ForgedReplay(w: World<Groups>, create: Event, removal: Event, join: Event)
    requires IsFirst(w) && Removal(create, removal, join) && removal.pubkey != create.pubkey
    ensures
      var s := Replay(w, [create, removal, join]);
      && s.held == [] && s.accepted == [create] && s.refused == [removal] && s.groups == map["g" := Founded(create)]
      && Roomy(w, Prepared(w, [create, removal, join]))
  {
    RemovalSuppresses(w, create, removal, join);
    SecondAt(w, create, removal, "g");
    var s1 := Begun(create, "g");
    StrangerRefused(w, s1, removal, "g");
  }

  /** the founder's is accepted. */
  lemma RemovalReplay(w: World<Groups>, create: Event, removal: Event, join: Event)
    requires IsFirst(w) && Removal(create, removal, join) && removal.pubkey == create.pubkey
    ensures
      var s := Replay(w, [create, removal, join]);
      && s.held == [] && s.accepted == [create, removal] && s.refused == [] && !Member(s.groups, "g", join.pubkey)
      && Roomy(w, Prepared(w, [create, removal, join]))
  {
    RemovalSuppresses(w, create, removal, join);
    SecondAt(w, create, removal, "g");
    var s1 := Begun(create, "g");
    AdminAccepted(w, s1, removal, "g");
    NamedByTag(removal.tags, join.pubkey);
  }

  lemma NamedByTag(tags: seq<seq<string>>, pk: string)
    requires HasTag(tags, "p", pk)
    ensures pk in Named(tags)
  {
    var i :| 0 <= i < |tags| && IsTag(tags[i], "p", pk);
  }

  /** Of three events only the middle one is refused. */
  lemma DropsMiddle<G>(w: World<G>, a: Event, b: Event, c: Event)
    requires a.id != b.id && a.id != c.id && b.id != c.id
    requires IsGroupKind(a.kind) && IsGroupKind(b.kind) && IsGroupKind(c.kind)
    requires a.kind != JOIN && !IsAction(a) && b.kind != DELETE_EVENT
    requires Replay(w, [a, b, c]).accepted == [a] && Replay(w, [a, b, c]).refused == [b]
    requires Replay(w, [a, b, c]).held == []
    ensures
      var t := Passed(Begin([a, b, c]));
      && Lawful(w, t) && Now(t) == History(t) == [a, b, c] && Applied(t) == {}
      && Stable(w, History(t), Applied(t)) && Remainder(w, t) == [a, c]
  {
    ModerationsOfThree(a, b, c);
    NoJoins(a);
    WithoutMiddle(a, b, c, {b.id});
    DropsFrom(w, [a, b, c], b, [a, c]);
  }

  lemma ForgedIsDropped(w: World<Groups>, create: Event, removal: Event, join: Event)
    requires IsFirst(w) && Removal(create, removal, join) && removal.pubkey != create.pubkey
    ensures
      var t := Passed(Begin([create, removal, join]));
      && Lawful(w, t) && Now(t) == History(t) == [create, removal, join] && Applied(t) == {}
      && Stable(w, History(t), Applied(t)) && Remainder(w, t) == [create, join]
  {
    ForgedReplay(w, create, removal, join);
    DropsMiddle(w, create, removal, join);
  }

  lemma NoJoins(e: Event)
    requires e.kind != JOIN
    ensures Joins([e]) == {}
  {
  }

  /** If all else holds and the groups differ, the two do not skip and strip alike. */
  lemma RerunSkipsDiffer<G>(w: World<G>, p: Policy, t: Trace, now: nat)
    requires !w.startup && w.now <= now && Lawful(w, t) && Stable(w, History(t), Applied(t)) && Spared(w, p, t)
    requires Roomy(w, Prepared(w, History(t)))
    requires NoneComeOfAge(w, Then(w, p, t, false, now), History(t), Gone(w, p, t))
    requires Replay(Then(w, p, t, false, now), Moderations(Left(w, p, t))).groups != Replay(w, History(t)).groups
    ensures !AllAlike(w, Then(w, p, t, false, now), History(t), Gone(w, p, t))
  {
    if AllAlike(w, Then(w, p, t, false, now), History(t), Gone(w, p, t)) {
      RerunAgrees(w, p, t, now);
    }
  }

  lemma RebuildSkipsDiffer<G(!new)>(w: World<G>, p: Policy, t: Trace, now: nat)
    requires !w.startup && w.now <= now && Inert(w) && Lawful(w, t) && Spared(w, p, t) && AdmittedStand(w, p, t)
    requires Roomy(w, Prepared(w, History(t)))
    requires Replay(Then(w, p, t, true, now), Moderations(Left(w, p, t))).groups != Replay(w, History(t)).groups
    ensures !AllAlike(w, Then(w, p, t, true, now), History(t), Gone(w, p, t))
  {
    if AllAlike(w, Then(w, p, t, true, now), History(t), Gone(w, p, t)) {
      RebuildAgrees(w, p, t, now);
    }
  }

  /** The rest of what a second run needs, for a history without requests. */
  lemma PlainAftermath<G>(w: World<G>, p: Policy, t: Trace, startup: bool, now: nat)
    requires !w.startup && w.now <= now && Now(t) == History(t)
    requires forall i :: 0 <= i < |History(t)| ==> !FutureDated(w, History(t)[i])
    ensures Spared(w, p, t) && Left(w, p, t) == Remainder(w, t) && Gone(w, p, t) == Dropped(w, t)
    ensures Then(w, p, t, startup, now) == w.(startup := startup, now := now)
    ensures NoneComeOfAge(w, Then(w, p, t, startup, now), History(t), Gone(w, p, t))
  {
    OnlyModeration(p, Now(t));
    NothingRequested(w, p, t, startup, now);
    NoneFuture(w, Then(w, p, t, startup, now), History(t), Gone(w, p, t));
  }

  /** Everything a second run needs holds but skipping and stripping alike. */
  ghost predicate RerunButAlike<G>(w: World<G>, p: Policy, t: Trace, now: nat) {
    var v := Then(w, p, t, false, now);
    && Lawful(w, t) && Stable(w, History(t), Applied(t)) && Roomy(w, Prepared(w, History(t))) && Spared(w, p, t)
    && NoneComeOfAge(w, v, History(t), Gone(w, p, t)) && !AllAlike(w, v, History(t), Gone(w, p, t))
  }

  lemma SmallLater(w: World<Groups>, startup: bool, now: nat)
    requires IsFirst(w) && w.now <= now
    ensures
      var v := w.(startup := startup, now := now);
      IsSmall(v) && v.vanished == {} && forall e: Event :: e.createdAt <= 1000 ==> !IsLate(v, e)
  {
  }

  lemma LaterJoin(w: World<Groups>, startup: bool, now: nat, create: Event, join: Event)
    requires IsFirst(w) && w.now <= now && Sent(create, CREATE_GROUP, "g") && Sent(join, JOIN, "g")
    ensures Member(Replay(w.(startup := startup, now := now), [create, join]).groups, "g", join.pubkey)
  {
    SmallLater(w, startup, now);
    JoinReplay(w.(startup := startup, now := now), create, join);
  }

  lemma SecondRunAdmits(w: World<Groups>, p: Policy, create: Event, removal: Event, join: Event, now: nat)
    requires IsFirst(w) && Removal(create, removal, join) && w.now <= now
    requires removal.pubkey != create.pubkey && join.pubkey != create.pubkey
    ensures
      var t := Passed(Begin([create, removal, join]));
      Member(Replay(Then(w, p, t, false, now), Moderations(Left(w, p, t))).groups, "g", join.pubkey)
  {
    ForgedIsDropped(w, create, removal, join);
    ModerationsOfTwo(create, join);
    LaterOver(w, p, Passed(Begin([create, removal, join])), false, now, [create, join]);
    LaterJoin(w, false, now, create, join);
  }

  lemma FirstRunSkips(w: World<Groups>, create: Event, removal: Event, join: Event)
    requires IsFirst(w) && Removal(create, removal, join)
    requires removal.pubkey != create.pubkey && join.pubkey != create.pubkey
    ensures !Member(Replay(w, [create, removal, join]).groups, "g", join.pubkey)
    ensures Roomy(w, Prepared(w, [create, removal, join]))
  {
    ForgedReplay(w, create, removal, join);
  }

  /** A removal nobody was entitled to makes the final replay skip a join of the
      same second, and is then dropped as refused, so a second run admits the join:
      the two do not skip alike. */
  lemma DroppedRemovalRevivesJoin(w: World<Groups>, p: Policy, create: Event, removal: Event, join: Event, now: nat)
    requires IsFirst(w) && Removal(create, removal, join) && w.now <= now
    requires Sorted(w.arrived, [create, removal, join])
    requires removal.pubkey != create.pubkey && join.pubkey != create.pubkey
    ensures
      var t := Passed(Begin([create, removal, join]));
      && RerunButAlike(w, p, t, now) && !Member(Replay(w, History(t)).groups, "g", join.pubkey)
      && Member(Replay(Then(w, p, t, false, now), Moderations(Left(w, p, t))).groups, "g", join.pubkey)
  {
    ForgedIsDropped(w, create, removal, join);
    PlainAftermath(w, p, Passed(Begin([create, removal, join])), false, now);
    FirstRunSkips(w, create, removal, join);
    SecondRunAdmits(w, p, create, removal, join, now);
    RerunSkipsDiffer(w, p, Passed(Begin([create, removal, join])), now);
  }

  /** For instance these. */
  lemma SuchRemovals(w: World<Groups>, pubkey: string)
    requires IsFirst(w) && w.arrived == map["1" := 1, "2" := 2, "3" := 3]
    ensures
      var create := Event("1", "alice", 1, CREATE_GROUP, [["h", "g"]], "", "");
      var removal := Event("2", pubkey, 5, REMOVE_USER, [["h", "g"], ["p", "bob"]], "", "");
      var join := Event("3", "bob", 5, JOIN, [["h", "g"]], "", "");
      Removal(create, removal, join) && Sorted(w.arrived, [create, removal, join])
  {
    var removal := Event("2", pubkey, 5, REMOVE_USER, [["h", "g"], ["p", "bob"]], "", "");
    assert IsTag(removal.tags[1], "p", "bob");
  }

  /** Nothing is refused or held, and nothing is to be done. */
  lemma KeepsAll<G>(w: World<G>, stored: seq<Event>)
    requires UniqueIds(stored)
    requires forall i :: 0 <= i < |stored| ==> IsGroupKind(stored[i].kind) && !IsAction(stored[i])
    requires Replay(w, stored).refused == [] && Replay(w, stored).held == []
    ensures
      var t := Passed(Begin(stored));
      && Lawful(w, t) && Now(t) == History(t) == stored && Applied(t) == {} && Remainder(w, t) == stored
      && Stable(w, History(t), Applied(t))
  {
    AllModerations(stored);
    NoActions(w, stored);
    DropsNothing(w, stored);
  }

  lemma NoActions<G>(w: World<G>, history: seq<Event>)
    requires forall i :: 0 <= i < |history| ==> !IsAction(history[i])
    ensures Performed(Replay(w, history).accepted, {})
  {
    var accepted := Replay(w, history).accepted;
    ReplayFrom(w, history);
    forall i | 0 <= i < |accepted| ensures !IsAction(accepted[i]) {
      assert Comes(history, accepted[i]);
    }
  }

  lemma RemovalStays(w: World<Groups>, create: Event, removal: Event, join: Event)
    requires IsFirst(w) && Removal(create, removal, join) && removal.pubkey == create.pubkey
    ensures
      var t := Passed(Begin([create, removal, join]));
      && Lawful(w, t) && Now(t) == History(t) == [create, removal, join] && Remainder(w, t) == [create, removal, join]
      && Replay(w, History(t)).refused == [] && Roomy(w, Prepared(w, History(t)))
      && !Member(Replay(w, History(t)).groups, "g", join.pubkey)
  {
    RemovalReplay(w, create, removal, join);
    RemovalKinds(create, removal, join);
    KeepsAll(w, [create, removal, join]);
  }

  lemma RemovalKinds(create: Event, removal: Event, join: Event)
    requires Removal(create, removal, join)
    ensures
      var stored := [create, removal, join];
      UniqueIds(stored) && forall i :: 0 <= i < |stored| ==> IsGroupKind(stored[i].kind) && !IsAction(stored[i])
  {
  }

  lemma RebuildPrepares(v: World<Groups>, create: Event, removal: Event, join: Event)
    requires IsSmall(v) && v.startup && v.vanished == {} && Removal(create, removal, join)
    requires removal.id in v.arrived && join.id in v.arrived
    ensures Prepared(v, [create, removal, join]) == [create, removal, join]
  {
    var history := [create, removal, join];
    assert !Suppressed(v, history, join);
    AllPrepared(v, history, history);
  }

  lemma RebuildRejoins(v: World<Groups>, create: Event, removal: Event, join: Event)
    requires IsSmall(v) && v.startup && v.vanished == {} && Removal(create, removal, join)
    requires removal.id in v.arrived && join.id in v.arrived
    ensures Member(Replay(v, [create, removal, join]).groups, "g", join.pubkey)
  {
    RebuildPrepares(v, create, removal, join);
    SecondAt(v, create, removal, "g");
    var s1 := Begun(create, "g");
    AdminAccepted(v, s1, removal, "g");
    var s2 := Adjudicate(v, s1, removal, true);
    InGroupAlready(v, s2.groups, join, "g");
    JoinAccepted(v, s2, join, "g");
    AtTriple(v, create, removal, join, s2);
  }

  /** Everything the rebuild needs holds but skipping and stripping alike. */
  ghost predicate RebuildButAlike<G(!new)>(w: World<G>, p: Policy, t: Trace, now: nat) {
    && Inert(w) && Lawful(w, t) && Roomy(w, Prepared(w, History(t))) && Spared(w, p, t) && AdmittedStand(w, p, t)
    && !AllAlike(w, Then(w, p, t, true, now), History(t), Gone(w, p, t))
  }

  lemma NoneRefused<G>(w: World<G>, p: Policy, t: Trace)
    requires Replay(w, History(t)).refused == []
    ensures AdmittedStand(w, p, t)
  {
  }

  lemma RebuildReadmits(w: World<Groups>, p: Policy, create: Event, removal: Event, join: Event, now: nat)
    requires IsFirst(w) && Removal(create, removal, join) && removal.pubkey == create.pubkey && w.now <= now
    requires removal.id in w.arrived && join.id in w.arrived
    ensures
      var t := Passed(Begin([create, removal, join]));
      Member(Replay(Then(w, p, t, true, now), Moderations(Left(w, p, t))).groups, "g", join.pubkey)
  {
    var stored := [create, removal, join];
    RemovalStays(w, create, removal, join);
    LaterOver(w, p, Passed(Begin(stored)), true, now, stored);
    SmallLater(w, true, now);
    RebuildRejoins(w.(startup := true, now := now), create, removal, join);
  }

  /** A legitimate removal and a join that arrived after it in the same second:
      nothing is dropped, yet the rebuild applies the join the migration skipped. */
  lemma ArrivalsReviveJoin(w: World<Groups>, p: Policy, create: Event, removal: Event, join: Event, now: nat)
    requires IsFirst(w) && Removal(create, removal, join) && removal.pubkey == create.pubkey && w.now <= now
    requires removal.id in w.arrived && join.id in w.arrived && Sorted(w.arrived, [create, removal, join])
    ensures
      var t := Passed(Begin([create, removal, join]));
      && RebuildButAlike(w, p, t, now) && Remainder(w, t) == Now(t)
      && !Member(Replay(w, History(t)).groups, "g", join.pubkey)
      && Member(Replay(Then(w, p, t, true, now), Moderations(Left(w, p, t))).groups, "g", join.pubkey)
  {
    var t := Passed(Begin([create, removal, join]));
    RemovalStays(w, create, removal, join);
    OnlyModeration(p, Now(t));
    NothingRequested(w, p, t, true, now);
    NoneRefused(w, p, t);
    SmallIsInert(w);
    RebuildReadmits(w, p, create, removal, join, now);
    RebuildSkipsDiffer(w, p, t, now);
  }
}
