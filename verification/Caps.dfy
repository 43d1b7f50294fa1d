/** The caps on held events: events of a group that never comes leave no room for
    an early event of one that does, and are dropped in the end, so a later
    replay has the room. */
module Caps {
  import opened Text
  import opened Events
  import opened EventLists
  import opened Moderation
  import opened ReplayOrder
  import opened GroupActions
  import opened Traces
  import opened Replays
  import opened Requests
  import opened Aftermath
  import opened SmallStore

  ghost predicate AllNever(bulk: seq<Event>) {
    forall i :: 0 <= i < |bulk| ==> Sent(bulk[i], EDIT_GROUP, "never")
  }

  /** The bulk can be held, and then another event cannot; alone it could. */
  ghost predicate Fills<G>(w: World<G>, bulk: seq<Event>, x: Event) {
    && AllNever(bulk) && |bulk| <= PENDING_STATE_MAX && TotalBytes(w, bulk) <= PENDING_STATE_BYTES
    && (|bulk| == PENDING_STATE_MAX || TotalBytes(w, bulk) + w.jsonBytes(x) > PENDING_STATE_BYTES)
    && w.jsonBytes(x) <= PENDING_STATE_BYTES
  }

  /** An event of a group before the group's create, in a history. */
  ghost predicate Ahead(bulk: seq<Event>, x: Event, kind: nat, create: Event) {
    Sent(x, kind, "late") && Sent(create, CREATE_GROUP, "late") && UniqueIds(bulk + [x, create])
  }

  /** Where the replay stands with the bulk held. */
  function Full<G>(w: World<G>, bulk: seq<Event>): Walk<G> {
    Walk(w.empty, bulk, |bulk|, TotalBytes(w, bulk), [], [])
  }

  lemma NeverIsHeld(w: World<Groups>, s: Walk<Groups>, e: Event)
    requires IsFirst(w) && Sent(e, EDIT_GROUP, "never") && s.groups == map[] && HasRoom(w, s, e)
    ensures Visit(w, s, e) == Hold(w, s, e)
  {
  }

  ghost predicate HeldAt<G>(w: World<G>, bulk: seq<Event>, i: nat)
    requires i < |bulk|
  {
    Visit(w, Full(w, bulk[..i]), bulk[i]) == Hold(w, Full(w, bulk[..i]), bulk[i])
  }

  lemma {:induction false} HoldsAll<G>(w: World<G>, bulk: seq<Event>, n: nat)
    requires n <= |bulk| && forall i :: 0 <= i < n ==> HeldAt(w, bulk, i)
    ensures VisitAll(w, Start(w), bulk[..n]) == Full(w, bulk[..n])
  {
    if n > 0 {
      HoldsAll(w, bulk, n - 1);
      assert HeldAt(w, bulk, n - 1);
      assert bulk[..n][..n - 1] == bulk[..n - 1] && bulk[..n] == bulk[..n - 1] + [bulk[n - 1]];
    }
  }

  lemma {:induction false} FewerBytes<G>(w: World<G>, bulk: seq<Event>, n: nat)
    requires n <= |bulk|
    ensures TotalBytes(w, bulk[..n]) <= TotalBytes(w, bulk)
    decreases |bulk| - n
  {
    if n < |bulk| {
      FewerBytes(w, bulk, n + 1);
      assert bulk[..n + 1][..n] == bulk[..n];
    } else {
      assert bulk[..n] == bulk;
    }
  }

  lemma BulkIsHeld(w: World<Groups>, bulk: seq<Event>)
    requires IsFirst(w) && AllNever(bulk) && |bulk| <= PENDING_STATE_MAX && TotalBytes(w, bulk) <= PENDING_STATE_BYTES
    ensures VisitAll(w, Start(w), bulk) == Full(w, bulk)
  {
    forall i | 0 <= i < |bulk| ensures HeldAt(w, bulk, i) {
      FewerBytes(w, bulk, i + 1);
      assert bulk[..i + 1][..i] == bulk[..i];
      NeverIsHeld(w, Full(w, bulk[..i]), bulk[i]);
    }
    HoldsAll(w, bulk, |bulk|);
    assert bulk[..|bulk|] == bulk;
  }

  lemma {:induction false} NoneOfLate(bulk: seq<Event>)
    requires AllNever(bulk)
    ensures Of(bulk, "late", true) == [] && Of(bulk, "late", false) == bulk
    decreases |bulk|
  {
    if bulk != [] {
      NoneOfLate(bulk[..|bulk| - 1]);
      assert Sent(bulk[|bulk| - 1], EDIT_GROUP, "never");
    }
  }

  lemma VisitThree<G>(w: World<G>, bulk: seq<Event>, x: Event, create: Event)
    ensures VisitAll(w, Start(w), bulk + [x, create]) == Visit(w, Visit(w, VisitAll(w, Start(w), bulk), x), create)
  {
    Regroup(bulk, x, create);
    VisitNext(w, bulk + [x], create);
    VisitNext(w, bulk, x);
  }

  lemma Regroup(bulk: seq<Event>, x: Event, create: Event)
    ensures bulk + [x, create] == bulk + [x] + [create]
  {
  }

  lemma NoRoomLeft(w: World<Groups>, bulk: seq<Event>, x: Event, kind: nat)
    requires IsFirst(w) && Fills(w, bulk, x) && Sent(x, kind, "late") && (kind == JOIN || kind == DELETE_EVENT)
    ensures !RoomFor(w, Full(w, bulk), x)
    ensures Visit(w, Full(w, bulk), x) == if kind == JOIN then Full(w, bulk) else Full(w, bulk).(refused := [x])
  {
    assert [] + [x] == [x];
  }

  lemma CreateFinds(w: World<Groups>, s: Walk<Groups>, create: Event)
    requires IsSmall(w) && Sent(create, CREATE_GROUP, "late") && s.groups == map[]
    ensures
      var created := s.(groups := map["late" := Founded(create)], accepted := s.accepted + [create]);
      Visit(w, s, create) == AdjudicateAll(w, Take(w, created, "late"), Of(s.held, "late", true))
  {
    assert Applying(map[], create) == map["late" := Founded(create)];
  }

  lemma NothingReleased(w: World<Groups>, bulk: seq<Event>, refused: seq<Event>, create: Event)
    requires IsSmall(w) && AllNever(bulk) && Sent(create, CREATE_GROUP, "late")
    ensures
      var s := Full(w, bulk).(refused := refused);
      Visit(w, s, create) == s.(groups := map["late" := Founded(create)], accepted := [create])
  {
    var s := Full(w, bulk).(refused := refused);
    CreateFinds(w, s, create);
    NoneOfLate(bulk);
    assert [] + [create] == [create];
    var created := s.(groups := map["late" := Founded(create)], accepted := [create]);
    assert TotalBytes(w, []) == 0;
    assert Take(w, created, "late") == created;
    assert AdjudicateAll(w, created, []) == created;
  }

  predicate Plain(e: Event) {
    e.createdAt <= 1000 && (e.kind == JOIN || e.kind == DELETE_EVENT || e.kind == CREATE_GROUP || e.kind == EDIT_GROUP)
  }

  lemma AllPlain(bulk: seq<Event>, x: Event, kind: nat, create: Event)
    requires AllNever(bulk) && Ahead(bulk, x, kind, create) && (kind == JOIN || kind == DELETE_EVENT)
    ensures forall i :: 0 <= i < |bulk + [x, create]| ==> Plain((bulk + [x, create])[i])
  {
    var all := bulk + [x, create];
    forall i | 0 <= i < |all| ensures Plain(all[i]) {
      if i < |bulk| {
        assert Sent(bulk[i], EDIT_GROUP, "never") && all[i] == bulk[i];
      }
    }
  }

  lemma PlainQuiet<G>(v: World<G>, events: seq<Event>)
    requires v.now >= 1000 && v.vanished == {} && forall i :: 0 <= i < |events| ==> Plain(events[i])
    ensures Quiet(v, events) && Moderations(events) == events
  {
    PlainModeration(events);
  }

  lemma PlainModeration(events: seq<Event>)
    requires forall i :: 0 <= i < |events| ==> Plain(events[i])
    ensures Moderations(events) == events
  {
    AllModerations(events);
  }

  lemma BulkQuiet<G>(v: World<G>, bulk: seq<Event>, x: Event, kind: nat, create: Event)
    requires v.now >= 1000 && v.vanished == {} && AllNever(bulk) && (kind == JOIN || kind == DELETE_EVENT)
    requires Ahead(bulk, x, kind, create)
    ensures Quiet(v, bulk + [x, create]) && Moderations(bulk + [x, create]) == bulk + [x, create]
    ensures Moderations([x, create]) == [x, create]
  {
    AllPlain(bulk, x, kind, create);
    PlainQuiet(v, bulk + [x, create]);
    PlainQuiet(v, [x, create]);
  }

  lemma FullReplay(w: World<Groups>, bulk: seq<Event>, x: Event, kind: nat, create: Event)
    requires IsFirst(w) && Fills(w, bulk, x) && Ahead(bulk, x, kind, create) && (kind == JOIN || kind == DELETE_EVENT)
    ensures
      var s := Replay(w, bulk + [x, create]);
      && s.groups == map["late" := Founded(create)] && s.held == bulk && s.accepted == [create]
      && s.refused == if kind == JOIN then [] else [x]
  {
    BulkQuiet(w, bulk, x, kind, create);
    QuietPrepared(w, bulk + [x, create]);
    VisitThree(w, bulk, x, create);
    BulkIsHeld(w, bulk);
    NoRoomLeft(w, bulk, x, kind);
    NothingReleased(w, bulk, if kind == JOIN then [] else [x], create);
  }

  lemma CapsBind(w: World<Groups>, bulk: seq<Event>, x: Event, kind: nat, create: Event)
    requires IsFirst(w) && Fills(w, bulk, x) && Ahead(bulk, x, kind, create) && (kind == JOIN || kind == DELETE_EVENT)
    ensures !Roomy(w, Prepared(w, bulk + [x, create]))
  {
    var events := bulk + [x, create];
    BulkQuiet(w, bulk, x, kind, create);
    QuietPrepared(w, events);
    BulkIsHeld(w, bulk);
    NoRoomLeft(w, bulk, x, kind);
    assert events[..|bulk|] == bulk && events[|bulk|] == x;
  }

  // ----- what the migration drops -----

  lemma HeldAreDropped<G>(s: Walk<G>, bulk: seq<Event>, x: Event, create: Event)
    requires s.held == bulk && AllNever(bulk) && s.accepted == [create] && create.kind == CREATE_GROUP
    requires s.refused == [] || (s.refused == [x] && x.kind == DELETE_EVENT)
    ensures DropIds(Undecided(s), {}, Joins(s.accepted), {}) == Ids(bulk)
  {
    assert Joins(s.accepted) == {};
    forall id | id in Ids(bulk) ensures id in DropIds(Undecided(s), {}, {}, {}) {
      var i :| 0 <= i < |bulk| && bulk[i].id == id;
      assert Sent(bulk[i], EDIT_GROUP, "never") && bulk[i] in Undecided(s);
    }
    forall id | id in DropIds(Undecided(s), {}, {}, {}) ensures id in Ids(bulk) {
      var e :| e in Undecided(s) && Drops(e, {}, {}, {}) && e.id == id;
      assert e in bulk;
    }
  }

  lemma {:induction false} WithoutAllBefore(before: seq<Event>, after: seq<Event>, gone: set<string>)
    requires Ids(before) <= gone && Ids(after) !! gone
    ensures Without(before + after, gone) == after
    decreases |after|, |before|
  {
    if after != [] {
      var rest, last := after[..|after| - 1], after[|after| - 1];
      assert before + after == before + rest + [last] && rest + [last] == after;
      IdsSnoc(rest, last);
      WithoutAllBefore(before, rest, gone);
      WithoutSnoc(before + rest, last, gone);
    } else if before != [] {
      var rest, last := before[..|before| - 1], before[|before| - 1];
      assert rest + [last] == before == before + after;
      IdsSnoc(rest, last);
      WithoutAllBefore(rest, [], gone);
      assert rest + [] == rest;
      WithoutSnoc(rest, last, gone);
    }
  }

  lemma BulkLeaves(bulk: seq<Event>, x: Event, kind: nat, create: Event)
    requires Ahead(bulk, x, kind, create)
    ensures Without(bulk + [x, create], Ids(bulk)) == [x, create]
  {
    var all := bulk + [x, create];
    forall id | id in Ids(bulk) ensures id != x.id && id != create.id {
      var i :| 0 <= i < |bulk| && bulk[i].id == id;
      assert all[i].id == id && all[|bulk|] == x && all[|bulk| + 1] == create;
    }
    WithoutAllBefore(bulk, [x, create], Ids(bulk));
  }

  /** The trace of a migration that found nothing to do, with the bulk dropped. */
  ghost predicate Emptied<G>(w: World<G>, p: Policy, t: Trace, history: seq<Event>, left: seq<Event>) {
    && Lawful(w, t) && Now(t) == History(t) == history && Applied(t) == {} && Stable(w, History(t), Applied(t))
    && Remainder(w, t) == left && Moderations(left) == left && NoRequest(p, Now(t))
  }

  lemma EmptiedBy<G>(w: World<G>, p: Policy, bulk: seq<Event>, x: Event, kind: nat, create: Event)
    requires AllNever(bulk) && Ahead(bulk, x, kind, create) && Moderations([x, create]) == [x, create]
    requires Moderations(bulk + [x, create]) == bulk + [x, create]
    requires
      var s := Replay(w, bulk + [x, create]);
      && s.held == bulk && s.accepted == [create]
      && (s.refused == [] || (s.refused == [x] && x.kind == DELETE_EVENT))
    ensures Emptied(w, p, Passed(Begin(bulk + [x, create])), bulk + [x, create], [x, create])
  {
    var stored := bulk + [x, create];
    NothingToDo(w, stored);
    HeldAreDropped(Replay(w, stored), bulk, x, create);
    BulkLeaves(bulk, x, kind, create);
    OnlyModeration(p, stored);
  }

  lemma BulkIsDropped(w: World<Groups>, p: Policy, bulk: seq<Event>, x: Event, kind: nat, create: Event)
    requires IsFirst(w) && Fills(w, bulk, x) && Ahead(bulk, x, kind, create) && (kind == JOIN || kind == DELETE_EVENT)
    ensures Emptied(w, p, Passed(Begin(bulk + [x, create])), bulk + [x, create], [x, create])
  {
    FullReplay(w, bulk, x, kind, create);
    BulkQuiet(w, bulk, x, kind, create);
    EmptiedBy(w, p, bulk, x, kind, create);
  }

  // ----- a later replay has the room -----

  lemma OneHeld(v: World<Groups>, x: Event, kind: nat)
    requires IsSmall(v) && Sent(x, kind, "late") && (kind == JOIN || kind == DELETE_EVENT)
    requires v.jsonBytes(x) <= PENDING_STATE_BYTES
    ensures Visit(v, Start(v), x) == Hold(v, Start(v), x) && Hold(v, Start(v), x).held == [x]
    ensures Of([x], "late", true) == [x]
  {
    assert [] + [x] == [x] && [x][..0] == [];
    assert Of([], "late", true) == [];
  }

  lemma JudgeOne<G>(v: World<G>, s: Walk<G>, e: Event)
    ensures AdjudicateAll(v, s, [e]) == Adjudicate(v, s, e, false)
  {
    assert [e][..0] == [];
    assert AdjudicateAll(v, s, []) == s;
  }

  /** Where the later replay judges the event it held. */
  function Released(v: World<Groups>, x: Event, create: Event): Walk<Groups> {
    var s := Hold(v, Start(v), x);
    Take(v, s.(groups := map["late" := Founded(create)], accepted := s.accepted + [create]), "late")
  }

  lemma OneVisited(v: World<Groups>, x: Event, kind: nat, create: Event)
    requires IsSmall(v) && Ahead([], x, kind, create) && (kind == JOIN || kind == DELETE_EVENT)
    requires v.jsonBytes(x) <= PENDING_STATE_BYTES
    ensures Visit(v, Visit(v, Start(v), x), create) == Adjudicate(v, Released(v, x, create), x, false)
  {
    OneHeld(v, x, kind);
    CreateFinds(v, Hold(v, Start(v), x), create);
    JudgeOne(v, Released(v, x, create), x);
  }

  lemma OneReleased(v: World<Groups>, x: Event, kind: nat, create: Event)
    requires IsSmall(v) && v.vanished == {} && Ahead([], x, kind, create) && (kind == JOIN || kind == DELETE_EVENT)
    requires v.jsonBytes(x) <= PENDING_STATE_BYTES
    ensures Replay(v, [x, create]) == Adjudicate(v, Released(v, x, create), x, false)
  {
    OneVisited(v, x, kind, create);
    assert [] + [x, create] == [x, create];
    BulkQuiet(v, [], x, kind, create);
    QuietPrepared(v, [x, create]);
    VisitThree(v, [], x, create);
  }

  lemma JoinReleased(v: World<Groups>, join: Event, create: Event)
    requires IsSmall(v) && v.vanished == {} && Ahead([], join, JOIN, create)
    requires v.jsonBytes(join) <= PENDING_STATE_BYTES
    ensures Member(Replay(v, [join, create]).groups, "late", join.pubkey)
  {
    OneReleased(v, join, JOIN, create);
  }

  lemma DeletionReleased(v: World<Groups>, deletion: Event, create: Event)
    requires IsSmall(v) && v.vanished == {} && Ahead([], deletion, DELETE_EVENT, create)
    requires v.jsonBytes(deletion) <= PENDING_STATE_BYTES && deletion.pubkey == create.pubkey
    ensures deletion in Replay(v, [deletion, create]).accepted
  {
    OneReleased(v, deletion, DELETE_EVENT, create);
    var s := Released(v, deletion, create);
    assert Authorized(v, s.groups, deletion);
    assert Adjudicate(v, s, deletion, false).accepted[|s.accepted|] == deletion;
  }

  // ----- the second run -----

  /** Everything a second run needs holds but that there is room. */
  ghost predicate RerunButRoomy<G>(w: World<G>, p: Policy, t: Trace, now: nat) {
    var v := Then(w, p, t, false, now);
    && Lawful(w, t) && Stable(w, History(t), Applied(t)) && Spared(w, p, t) && !Roomy(w, Prepared(w, History(t)))
    && NoneComeOfAge(w, v, History(t), Gone(w, p, t)) && AllAlike(w, v, History(t), Gone(w, p, t))
  }

  lemma EmptiedRerun<G>(w: World<G>, p: Policy, t: Trace, history: seq<Event>, left: seq<Event>, now: nat)
    requires Emptied(w, p, t, history, left) && !w.startup && 1000 <= w.now <= now && w.vanished == {}
    requires (forall i :: 0 <= i < |history| ==> Plain(history[i])) && !Roomy(w, Prepared(w, history))
    ensures RerunButRoomy(w, p, t, now)
    ensures Replay(Then(w, p, t, false, now), Moderations(Left(w, p, t)))
      == Replay(w.(startup := false, now := now), left)
  {
    var v := Then(w, p, t, false, now);
    LaterOver(w, p, t, false, now, left);
    NothingRequested(w, p, t, false, now);
    QuietIsAlike(w, v, history, Gone(w, p, t));
    NoneFuture(w, v, history, Gone(w, p, t));
  }

  /** Past the caps, an early deletion is refused for lack of room but kept; a
      second run holds it and then authorises it. */
  lemma CapsDecide(w: World<Groups>, p: Policy, bulk: seq<Event>, deletion: Event, create: Event, now: nat)
    requires IsFirst(w) && Fills(w, bulk, deletion) && Ahead(bulk, deletion, DELETE_EVENT, create) && w.now <= now
    requires deletion.pubkey == create.pubkey && Sorted(w.arrived, bulk + [deletion, create])
    ensures
      var t := Passed(Begin(bulk + [deletion, create]));
      && RerunButRoomy(w, p, t, now) && deletion !in Replay(w, History(t)).accepted
      && deletion in Replay(Then(w, p, t, false, now), Moderations(Left(w, p, t))).accepted
  {
    BulkIsDropped(w, p, bulk, deletion, DELETE_EVENT, create);
    DeletionLeft(w, p, Passed(Begin(bulk + [deletion, create])), bulk, deletion, create, now);
    LaterDeletion(w, bulk, deletion, create, now);
  }

  lemma NotYet(w: World<Groups>, bulk: seq<Event>, deletion: Event, create: Event)
    requires IsFirst(w) && Fills(w, bulk, deletion) && Ahead(bulk, deletion, DELETE_EVENT, create)
    ensures deletion !in Replay(w, bulk + [deletion, create]).accepted
  {
    FullReplay(w, bulk, deletion, DELETE_EVENT, create);
  }

  lemma DeletionLeft(w: World<Groups>, p: Policy, t: Trace, bulk: seq<Event>, deletion: Event, create: Event, now: nat)
    requires IsFirst(w) && Fills(w, bulk, deletion) && Ahead(bulk, deletion, DELETE_EVENT, create) && w.now <= now
    requires Emptied(w, p, t, bulk + [deletion, create], [deletion, create])
    ensures RerunButRoomy(w, p, t, now) && deletion !in Replay(w, History(t)).accepted
    ensures Replay(Then(w, p, t, false, now), Moderations(Left(w, p, t)))
      == Replay(w.(startup := false, now := now), [deletion, create])
  {
    CapsBind(w, bulk, deletion, DELETE_EVENT, create);
    NotYet(w, bulk, deletion, create);
    AllPlain(bulk, deletion, DELETE_EVENT, create);
    EmptiedRerun(w, p, t, bulk + [deletion, create], [deletion, create], now);
  }

  lemma LaterDeletion(w: World<Groups>, bulk: seq<Event>, deletion: Event, create: Event, now: nat)
    requires IsFirst(w) && Fills(w, bulk, deletion) && Ahead(bulk, deletion, DELETE_EVENT, create) && w.now <= now
    requires deletion.pubkey == create.pubkey
    ensures deletion in Replay(w.(startup := false, now := now), [deletion, create]).accepted
  {
    AheadAlone(bulk, deletion, DELETE_EVENT, create);
    DeletionReleased(w.(startup := false, now := now), deletion, create);
  }

  lemma AheadAlone(bulk: seq<Event>, x: Event, kind: nat, create: Event)
    requires Ahead(bulk, x, kind, create)
    ensures Ahead([], x, kind, create)
  {
    var all := bulk + [x, create];
    assert all[|bulk|] == x && all[|bulk| + 1] == create;
  }

  // ----- the rebuild -----

  /** Everything the rebuild needs holds but that there is room. */
  ghost predicate RebuildButRoomy<G(!new)>(w: World<G>, p: Policy, t: Trace, now: nat) {
    && Inert(w) && Lawful(w, t) && Spared(w, p, t) && AdmittedStand(w, p, t) && !Roomy(w, Prepared(w, History(t)))
    && AllAlike(w, Then(w, p, t, true, now), History(t), Gone(w, p, t))
  }

  lemma EmptiedRebuild<G(!new)>(w: World<G>, p: Policy, t: Trace, history: seq<Event>, left: seq<Event>, now: nat)
    requires Emptied(w, p, t, history, left) && Inert(w) && w.now <= now && Quiet(w, history)
    requires !Roomy(w, Prepared(w, history)) && Replay(w, history).refused == []
    ensures RebuildButRoomy(w, p, t, now)
    ensures Replay(Then(w, p, t, true, now), Moderations(Left(w, p, t)))
      == Replay(w.(startup := true, now := now), left)
  {
    LaterOver(w, p, t, true, now, left);
    NothingRequested(w, p, t, true, now);
    QuietIsAlike(w, Then(w, p, t, true, now), history, Gone(w, p, t));
  }

  /** Past the caps the rebuild differs as well: a join the migration had no room
      to hold is kept without effect, and the rebuild holds and applies it. */
  lemma CapsReviveJoin(w: World<Groups>, p: Policy, bulk: seq<Event>, join: Event, create: Event, now: nat)
    requires IsFirst(w) && Fills(w, bulk, join) && Ahead(bulk, join, JOIN, create) && w.now <= now
    requires join.pubkey != create.pubkey && Sorted(w.arrived, bulk + [join, create])
    ensures
      var t := Passed(Begin(bulk + [join, create]));
      && RebuildButRoomy(w, p, t, now) && !Member(Replay(w, History(t)).groups, "late", join.pubkey)
      && Member(Replay(Then(w, p, t, true, now), Moderations(Left(w, p, t))).groups, "late", join.pubkey)
  {
    BulkIsDropped(w, p, bulk, join, JOIN, create);
    JoinLeft(w, p, Passed(Begin(bulk + [join, create])), bulk, join, create, now);
    LaterJoin(w, bulk, join, create, now);
  }

  lemma JoinLeft(w: World<Groups>, p: Policy, t: Trace, bulk: seq<Event>, join: Event, create: Event, now: nat)
    requires IsFirst(w) && Fills(w, bulk, join) && Ahead(bulk, join, JOIN, create) && w.now <= now
    requires join.pubkey != create.pubkey && Emptied(w, p, t, bulk + [join, create], [join, create])
    ensures RebuildButRoomy(w, p, t, now) && !Member(Replay(w, History(t)).groups, "late", join.pubkey)
    ensures Replay(Then(w, p, t, true, now), Moderations(Left(w, p, t)))
      == Replay(w.(startup := true, now := now), [join, create])
  {
    CapsBind(w, bulk, join, JOIN, create);
    BulkQuiet(w, bulk, join, JOIN, create);
    FullReplay(w, bulk, join, JOIN, create);
    SmallIsInert(w);
    EmptiedRebuild(w, p, t, bulk + [join, create], [join, create], now);
  }

  lemma LaterJoin(w: World<Groups>, bulk: seq<Event>, join: Event, create: Event, now: nat)
    requires IsFirst(w) && Fills(w, bulk, join) && Ahead(bulk, join, JOIN, create) && w.now <= now
    ensures Member(Replay(w.(startup := true, now := now), [join, create]).groups, "late", join.pubkey)
  {
    AheadAlone(bulk, join, JOIN, create);
    JoinReleased(w.(startup := true, now := now), join, create);
  }

  // ----- such histories -----

  function Nth(i: nat): Event { Event(seq(i, _ => 'a'), "mallory", 1, EDIT_GROUP, [["h", "never"]], "", "") }

  function Crowd(n: nat): seq<Event> { seq(n, i requires 0 <= i < n => Nth(i)) }

  lemma {:induction false} CrowdBytes<G>(w: World<G>, n: nat)
    requires forall e: Event :: w.jsonBytes(e) <= 1000
    ensures TotalBytes(w, Crowd(n)) <= 1000 * n
  {
    if n > 0 {
      CrowdBytes(w, n - 1);
      assert Crowd(n)[..n - 1] == Crowd(n - 1) && Crowd(n)[n - 1] == Nth(n - 1);
    }
  }

  /** Small events in great number will do: */
  lemma CrowdFills(w: World<Groups>, x: Event)
    requires IsFirst(w) && forall e: Event :: w.jsonBytes(e) <= 1000
    ensures Fills(w, Crowd(PENDING_STATE_MAX), x)
  {
    CrowdBytes(w, PENDING_STATE_MAX);
    var bulk := Crowd(PENDING_STATE_MAX);
    forall i | 0 <= i < |bulk| ensures Sent(bulk[i], EDIT_GROUP, "never") {
      assert bulk[i] == Nth(i);
    }
  }

  lemma {:induction false} LongerIsLater(i: nat, j: nat)
    requires i < j
    ensures LexLess(Nth(i).id, Nth(j).id)
  {
    if i > 0 {
      LongerIsLater(i - 1, j - 1);
      assert Nth(i).id[1..] == Nth(i - 1).id && Nth(j).id[1..] == Nth(j - 1).id;
    }
  }

  /** in order, */
  lemma CrowdSorted(n: nat, x: Event, create: Event)
    requires 1 < x.createdAt < create.createdAt
    ensures Sorted(map[], Crowd(n) + [x, create])
  {
    var all := Crowd(n) + [x, create];
    forall i, j | 0 <= i < j < |all| ensures Before(map[], all[i], all[j]) {
      if j < n {
        assert all[i] == Nth(i) && all[j] == Nth(j);
        LongerIsLater(i, j);
      } else if i < n {
        assert all[i] == Nth(i);
      }
    }
  }

  /** and ahead of these, for any author of the early event. */
  lemma CrowdAhead(n: nat, kind: nat, pubkey: string)
    ensures
      var x := Event("x", pubkey, 2, kind, [["h", "late"]], "", "");
      Ahead(Crowd(n), x, kind, Event("c", "alice", 3, CREATE_GROUP, [["h", "late"]], "", ""))
  {
    var x, create := Event("x", pubkey, 2, kind, [["h", "late"]], "", ""),
                     Event("c", "alice", 3, CREATE_GROUP, [["h", "late"]], "", "");
    var all := Crowd(n) + [x, create];
    forall i, j | 0 <= i < j < |all| ensures all[i].id != all[j].id {
      if i < n {
        assert all[i] == Nth(i) && (j < n ==> all[j] == Nth(j));
        assert |Nth(i).id| == i && |Nth(j).id| == j;
        assert i == 1 ==> Nth(i).id[0] == 'a';
      }
    }
  }
}
