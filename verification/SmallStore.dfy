/** A small group store, and replays of short histories over it. */
module SmallStore {
  import opened Text
  import opened Events
  import opened EventLists
  import opened Moderation
  import opened ReplayOrder
  import opened GroupActions
  import opened Traces
  import opened Replays
  import opened Requests
  import opened Aftermath

  // ----- a small group store -----

  datatype Group = Group(closed: bool, members: set<string>, admins: set<string>)

  type Groups = map<string, Group>

  function Named(tags: seq<seq<string>>): set<string> {
    set i | 0 <= i < |tags| && |tags[i]| >= 2 && tags[i][0] == "p" :: tags[i][1]
  }

  function Promoted(tags: seq<seq<string>>): set<string> {
    set i | 0 <= i < |tags| && |tags[i]| >= 3 && tags[i][0] == "p" && tags[i][2] != "" :: tags[i][1]
  }

  predicate Closes(e: Event) { exists i :: 0 <= i < |e.tags| && |e.tags[i]| >= 1 && e.tags[i][0] == "closed" }

  function Changed(x: Group, e: Event): Group {
    if e.kind == JOIN then x.(members := x.members + {e.pubkey})
    else if e.kind == LEAVE then x.(members := x.members - {e.pubkey}, admins := x.admins - {e.pubkey})
    else if e.kind == PUT_USER then
      x.(members := x.members + Named(e.tags), admins := x.admins - Named(e.tags) + Promoted(e.tags))
    else if e.kind == REMOVE_USER then x.(members := x.members - Named(e.tags), admins := x.admins - Named(e.tags))
    else if e.kind == EDIT_GROUP then x.(closed := Closes(e))
    else x
  }

  const EDIT_GROUP: nat := 9002

  /** A store of open groups, their members and their admins: creates found them,
      edits close and open them, grants, removals, joins and leaves move members,
      and the relay has no key of its own. */
  function Applying(g: Groups, e: Event): Groups {
    if GroupId(e).None? || e.kind == DELETE_EVENT then g
    else
      var gid := GroupId(e).value;
      if e.kind == CREATE_GROUP then
        if gid == "" || gid in g then g else g[gid := Group(false, {e.pubkey}, {e.pubkey})]
      else if gid !in g then g
      else if e.kind == DELETE_GROUP then g - {gid}
      else g[gid := Changed(g[gid], e)]
  }

  function Small(bytes: Event -> nat, arrived: map<string, nat>): World<Groups> {
    World(map[], (g: Groups, x) => x in g, (g: Groups, x) => x in g && g[x].closed,
          (g: Groups, x, pk) => x in g && pk in g[x].admins, (g, x) => false, (g, x) => false,
          Applying, bytes, None, {}, arrived, 1000, false)
  }

  /** The store at some time, in the migration or at startup. */
  ghost predicate IsSmall(w: World<Groups>) {
    w.now >= 1000 && w == Small(w.jsonBytes, w.arrived).(now := w.now, startup := w.startup, vanished := w.vanished)
  }

  /** The store as the migration reads it. */
  ghost predicate IsFirst(w: World<Groups>) {
    IsSmall(w) && !w.startup && w.vanished == {}
  }

  lemma SmallIsInert(w: World<Groups>)
    requires IsSmall(w)
    ensures Inert(w)
  {
  }

  predicate Member(g: Groups, gid: string, pk: string) { gid in g && pk in g[gid].members }

  /** An event of a group, dated in time. */
  predicate Sent(e: Event, kind: nat, group: string) {
    e.kind == kind && GroupId(e) == Some(group) && e.createdAt <= 1000
  }

  // ----- short replays -----

  lemma {:induction false} AllModerations(stored: seq<Event>)
    requires forall i :: 0 <= i < |stored| ==> IsGroupKind(stored[i].kind)
    ensures Moderations(stored) == stored
    decreases |stored|
  {
    if stored != [] {
      var prefix, last := stored[..|stored| - 1], stored[|stored| - 1];
      assert stored == prefix + [last] && IsGroupKind(last.kind);
      AllModerations(prefix);
      assert Moderations(stored) == Moderations(prefix) + [last];
    }
  }

  lemma ModerationsOfTwo(a: Event, b: Event)
    requires IsGroupKind(a.kind) && IsGroupKind(b.kind)
    ensures Moderations([a, b]) == [a, b]
  {
    AllModerations([a, b]);
  }

  lemma ModerationsOfThree(a: Event, b: Event, c: Event)
    requires IsGroupKind(a.kind) && IsGroupKind(b.kind) && IsGroupKind(c.kind)
    ensures Moderations([a, b, c]) == [a, b, c]
  {
    AllModerations([a, b, c]);
  }

  lemma {:induction false} AllPrepared<G>(w: World<G>, history: seq<Event>, events: seq<Event>)
    requires forall i :: 0 <= i < |events| ==> !Skips(w, history, events[i]) && Stripped(w, events[i]) == events[i]
    ensures PrepareAll(w, history, events) == events
    decreases |events|
  {
    if events != [] {
      AllPrepared(w, history, events[..|events| - 1]);
    }
  }

  /** Nothing to skip or strip. */
  ghost predicate Quiet<G>(w: World<G>, history: seq<Event>) {
    forall i :: 0 <= i < |history| ==>
      && history[i].kind != REMOVE_USER && history[i].kind != PUT_USER
      && history[i].pubkey !in w.vanished && !IsLate(w, history[i])
  }

  lemma QuietPrepared<G>(w: World<G>, history: seq<Event>)
    requires Quiet(w, history)
    ensures Prepared(w, history) == history
  {
    forall i | 0 <= i < |history| ensures !Skips(w, history, history[i]) && Stripped(w, history[i]) == history[i] {
      assert !Suppressed(w, history, history[i]);
    }
    AllPrepared(w, history, history);
  }

  lemma VisitNext<G>(w: World<G>, events: seq<Event>, e: Event)
    ensures VisitAll(w, Start(w), events + [e]) == Visit(w, VisitAll(w, Start(w), events), e)
  {
    assert (events + [e])[..|events|] == events;
  }

  /** With nothing held, an event of a known group, or a create, is judged in
      place. */
  lemma InPlace<G>(w: World<G>, s: Walk<G>, e: Event)
    requires s.held == [] && s.count == 0 && s.bytes == 0 && !Early(w, s.groups, e)
    ensures Visit(w, s, e) == Adjudicate(w, s, e, true)
  {
    if Releases(w, s.groups, e) {
      var t, gid := Adjudicate(w, s, e, true), NonEmptyGroup(e).value;
      assert Take(w, t, gid) == t;
      assert AdjudicateAll(w, t, []) == t;
    }
  }

  /** The replay of some events, with nothing held on the way, stands here. */
  ghost predicate At<G>(w: World<G>, events: seq<Event>, s: Walk<G>) {
    && VisitAll(w, Start(w), events) == s && Roomy(w, events)
    && s.held == [] && s.count == 0 && s.bytes == 0
  }

  lemma AtNext<G>(w: World<G>, events: seq<Event>, s: Walk<G>, e: Event, s': Walk<G>)
    requires At(w, events, s) && !Early(w, s.groups, e) && Adjudicate(w, s, e, true) == s'
    ensures At(w, events + [e], s')
  {
    var all := events + [e];
    InPlace(w, s, e);
    VisitNext(w, events, e);
    forall i | 0 <= i < |all| ensures RoomFor(w, VisitAll(w, Start(w), all[..i]), all[i]) {
      assert all[..i] == events[..i];
      assert i == |events| ==> events[..i] == events;
    }
  }

  lemma QuietAt<G>(w: World<G>, history: seq<Event>, s: Walk<G>)
    requires Quiet(w, history) && At(w, history, s)
    ensures Replay(w, history) == s && Roomy(w, Prepared(w, history))
  {
    QuietPrepared(w, history);
  }

  /** The group as its create founds it. */
  function Founded(create: Event): Group { Group(false, {create.pubkey}, {create.pubkey}) }

  /** Where a replay stands after it. */
  function Begun(create: Event, gid: string): Walk<Groups> {
    Walk(map[gid := Founded(create)], [], 0, 0, [create], [])
  }

  lemma Founding(w: World<Groups>, create: Event, gid: string)
    requires IsSmall(w) && Sent(create, CREATE_GROUP, gid) && gid != ""
    ensures !Early(w, w.empty, create) && Adjudicate(w, Start(w), create, true) == Begun(create, gid)
  {
    assert [] + [create] == [create];
    assert Applying(map[], create) == map[gid := Founded(create)];
  }

  lemma FoundedAt(w: World<Groups>, create: Event, gid: string)
    requires IsSmall(w) && Sent(create, CREATE_GROUP, gid) && gid != ""
    ensures At(w, [create], Begun(create, gid))
  {
    Founding(w, create, gid);
    assert At(w, [], Start(w));
    AtNext(w, [], Start(w), create, Begun(create, gid));
    assert [] + [create] == [create];
  }

  lemma AtPair<G>(w: World<G>, a: Event, b: Event, s: Walk<G>)
    requires At(w, [a], s) && !Early(w, s.groups, b)
    ensures At(w, [a, b], Adjudicate(w, s, b, true))
  {
    AtNext(w, [a], s, b, Adjudicate(w, s, b, true));
    assert [a] + [b] == [a, b];
  }

  lemma AtTriple<G>(w: World<G>, a: Event, b: Event, c: Event, s: Walk<G>)
    requires At(w, [a, b], s) && !Early(w, s.groups, c)
    ensures At(w, [a, b, c], Adjudicate(w, s, c, true))
  {
    AtNext(w, [a, b], s, c, Adjudicate(w, s, c, true));
    assert [a, b] + [c] == [a, b, c];
  }

  /** A create, and an event of its group. */
  lemma SecondAt(w: World<Groups>, create: Event, e: Event, gid: string)
    requires IsSmall(w) && Sent(create, CREATE_GROUP, gid) && gid != "" && GroupId(e) == Some(gid)
    requires e.kind != CREATE_GROUP
    ensures At(w, [create, e], Adjudicate(w, Begun(create, gid), e, true))
  {
    FoundedAt(w, create, gid);
    InGroupAlready(w, Begun(create, gid).groups, e, gid);
    AtPair(w, create, e, Begun(create, gid));
  }

  /** An event of a group that exists, and is not a create, is judged in place. */
  lemma InGroupAlready(w: World<Groups>, g: Groups, e: Event, gid: string)
    requires IsSmall(w) && gid in g && GroupId(e) == Some(gid) && e.kind != CREATE_GROUP
    ensures !Early(w, g, e)
  {
  }

  /** A join to an open group, or any join at startup, is accepted. */
  lemma JoinAccepted(w: World<Groups>, s: Walk<Groups>, e: Event, gid: string)
    requires IsSmall(w) && Sent(e, JOIN, gid) && gid in s.groups && (w.startup || !s.groups[gid].closed)
    ensures Adjudicate(w, s, e, true) == s.(groups := Applying(s.groups, e), accepted := s.accepted + [e])
    ensures gid in Applying(s.groups, e) && Applying(s.groups, e)[gid] == Changed(s.groups[gid], e)
  {
  }

  /** Moderation by an admin, or any at startup, is accepted. */
  lemma AdminAccepted(w: World<Groups>, s: Walk<Groups>, e: Event, gid: string)
    requires IsSmall(w) && Sent(e, e.kind, gid) && gid in s.groups && MOD_MIN <= e.kind <= MOD_MAX
    requires w.startup || e.pubkey in s.groups[gid].admins
    ensures Adjudicate(w, s, e, true) == s.(groups := Applying(s.groups, e), accepted := s.accepted + [e])
  {
  }

  /** Moderation by anyone else is refused in the migration. */
  lemma StrangerRefused(w: World<Groups>, s: Walk<Groups>, e: Event, gid: string)
    requires IsSmall(w) && !w.startup && GroupId(e) == Some(gid) && gid in s.groups && MOD_MIN <= e.kind <= MOD_MAX
    requires e.pubkey !in s.groups[gid].admins
    ensures Adjudicate(w, s, e, true) == s.(refused := s.refused + [e])
  {
  }

  /** So is a join to a closed group without a code. */
  lemma JoinRefused(w: World<Groups>, s: Walk<Groups>, e: Event, gid: string)
    requires IsSmall(w) && !w.startup && Sent(e, JOIN, gid) && gid in s.groups && s.groups[gid].closed
    requires FirstTagValue(e.tags, "code") == None
    ensures Adjudicate(w, s, e, true) == s.(refused := s.refused + [e])
  {
  }

  // ----- what a migration with nothing to do leaves -----

  lemma NothingToDo<G>(w: World<G>, stored: seq<Event>)
    requires UniqueIds(stored) && Performed(Accepts(w, stored), {})
    ensures
      var s, t := Replay(w, Moderations(stored)), Passed(Begin(stored));
      && Lawful(w, t) && Now(t) == stored && Applied(t) == {} && Admitted(w, t) == Joins(s.accepted)
      && Dropped(w, t) == DropIds(Undecided(s), {}, Joins(s.accepted), {})
  {
    var s, t := Replay(w, Moderations(stored)), Passed(Begin(stored));
    assert Admitted(w, Begin(stored)) == {};
    assert {} + Joins(s.accepted) == Joins(s.accepted);
  }

  lemma AllDecided<G>(s: Walk<G>, applied: set<string>, admitted: set<string>)
    requires s.refused == [] && s.held == []
    ensures DropIds(Undecided(s), applied, admitted, {}) == {}
  {
    assert Undecided(s) == {};
  }

  lemma OneUndecided<G>(s: Walk<G>, e: Event, applied: set<string>, admitted: set<string>)
    requires s.refused + s.held == [e]
    ensures DropIds(Undecided(s), applied, admitted, {}) == if Drops(e, applied, admitted, {}) then {e.id} else {}
  {
    assert Undecided(s) == {e} by {
      assert forall x :: x in s.refused + s.held <==> x in s.refused || x in s.held;
    }
  }

  /** A migration that drops nothing, or one event. */
  lemma DropsNothing<G>(w: World<G>, stored: seq<Event>)
    requires UniqueIds(stored) && Performed(Accepts(w, stored), {})
    requires Replay(w, Moderations(stored)).refused == [] && Replay(w, Moderations(stored)).held == []
    ensures
      var t := Passed(Begin(stored));
      && Lawful(w, t) && Now(t) == stored && Applied(t) == {} && Stable(w, History(t), Applied(t))
      && Remainder(w, t) == stored
  {
    NothingToDo(w, stored);
    AllDecided(Replay(w, Moderations(stored)), {}, Joins(Accepts(w, stored)));
    WithoutNothing(stored, {});
  }

  lemma DropsOne<G>(w: World<G>, stored: seq<Event>, x: Event)
    requires UniqueIds(stored) && Performed(Accepts(w, stored), {})
    requires Replay(w, Moderations(stored)).refused + Replay(w, Moderations(stored)).held == [x]
    ensures
      var t := Passed(Begin(stored));
      && Lawful(w, t) && Now(t) == stored && Applied(t) == {} && Stable(w, History(t), Applied(t))
      && Admitted(w, t) == Joins(Accepts(w, stored))
      && Dropped(w, t) == if Drops(x, {}, Joins(Accepts(w, stored)), {}) then {x.id} else {}
  {
    NothingToDo(w, stored);
    OneUndecided(Replay(w, Moderations(stored)), x, {}, Joins(Accepts(w, stored)));
  }

  /** A migration over moderation only that drops one event. */
  lemma DropsFrom<G>(w: World<G>, stored: seq<Event>, x: Event, left: seq<Event>)
    requires UniqueIds(stored) && Moderations(stored) == stored && Performed(Replay(w, stored).accepted, {})
    requires Replay(w, stored).refused + Replay(w, stored).held == [x]
    requires left == Without(stored, if Drops(x, {}, Joins(Replay(w, stored).accepted), {}) then {x.id} else {})
    ensures
      var t := Passed(Begin(stored));
      && Lawful(w, t) && Now(t) == History(t) == stored && Applied(t) == {}
      && Stable(w, History(t), Applied(t)) && Remainder(w, t) == left
  {
    DropsOne(w, stored, x);
  }

  /** Only one of the events goes. */
  lemma {:induction false} WithoutOnly(before: seq<Event>, x: Event, after: seq<Event>, gone: set<string>)
    requires Ids(before) !! gone && x.id in gone && Ids(after) !! gone
    ensures Without(before + [x] + after, gone) == before + after
    decreases |after|
  {
    if after == [] {
      assert before + [x] + after == before + [x] && before + after == before;
      WithoutSnoc(before, x, gone);
      WithoutNothing(before, gone);
    } else {
      var rest, last := after[..|after| - 1], after[|after| - 1];
      assert rest + [last] == after;
      IdsSnoc(rest, last);
      WithoutOnly(before, x, rest, gone);
      assert before + [x] + after == before + [x] + rest + [last] && before + after == before + rest + [last];
      WithoutSnoc(before + [x] + rest, last, gone);
    }
  }

  lemma WithoutOne(a: Event, gone: set<string>)
    ensures Without([a], gone) == if a.id in gone then [] else [a]
  {
    assert [] + [a] == [a];
    WithoutSnoc([], a, gone);
  }

  lemma WithoutFirst(a: Event, b: Event, gone: set<string>)
    requires a.id in gone && b.id !in gone
    ensures Without([a, b], gone) == [b]
  {
    assert [a] + [b] == [a, b];
    WithoutSnoc([a], b, gone);
    WithoutOne(a, gone);
  }

  lemma WithoutMiddle(a: Event, b: Event, c: Event, gone: set<string>)
    requires a.id !in gone && b.id in gone && c.id !in gone
    ensures Without([a, b, c], gone) == [a, c]
  {
    assert [a] + [b] == [a, b] && [a, b] + [c] == [a, b, c];
    WithoutOne(a, gone);
    WithoutSnoc([a], b, gone);
    WithoutSnoc([a, b], c, gone);
  }

  ghost predicate NoRequest(p: Policy, stored: seq<Event>) {
    forall r :: r in stored ==> !IsRequest(p, r)
  }

  lemma OnlyModeration(p: Policy, stored: seq<Event>)
    requires Moderations(stored) == stored
    ensures NoRequest(p, stored)
  {
    forall r | r in stored ensures !IsRequest(p, r) {
      var i :| 0 <= i < |stored| && stored[i] == r;
      assert IsGroupKind(Moderations(stored)[i].kind);
    }
  }

  /** Without requests the moderation step has the last word. */
  lemma NothingRequested<G>(w: World<G>, p: Policy, t: Trace, startup: bool, now: nat)
    requires NoRequest(p, Now(t))
    ensures Left(w, p, t) == Remainder(w, t) && Gone(w, p, t) == Dropped(w, t) && Spared(w, p, t)
    ensures Then(w, p, t, startup, now) == w.(startup := startup, now := now)
  {
    var stored := Remainder(w, t);
    forall r | r in stored ensures !IsRequest(p, r) {
      ComesFrom(Now(t), Dropped(w, t), r);
    }
    assert forall r, x :: Withdraws(p, r, x) ==> IsRequest(p, r);
    assert Reached(p, stored) == {};
    assert Vanishing(p, stored) == {};
    WithoutNothing(stored, {});
    assert w.vanished + {} == w.vanished && Dropped(w, t) + {} == Dropped(w, t);
  }

  /** What a later replay is over, for a history without requests. */
  lemma LaterOver<G>(w: World<G>, p: Policy, t: Trace, startup: bool, now: nat, left: seq<Event>)
    requires Now(t) == History(t) && Remainder(w, t) == left && Moderations(left) == left
    ensures Replay(Then(w, p, t, startup, now), Moderations(Left(w, p, t)))
      == Replay(w.(startup := startup, now := now), left)
  {
    OnlyModeration(p, Now(t));
    NothingRequested(w, p, t, startup, now);
  }

  /** No event that was dated ahead. */
  lemma NoneFuture<G>(w: World<G>, v: World<G>, history: seq<Event>, gone: set<string>)
    requires forall i :: 0 <= i < |history| ==> !FutureDated(w, history[i])
    ensures NoneComeOfAge(w, v, history, gone)
  {
    forall e | e in Without(history, gone) ensures !FutureDated(w, e) {
      ComesFrom(history, gone, e);
    }
  }

  /** No removal, and no key that vanished since: all is skipped and stripped alike. */
  lemma QuietIsAlike<G>(w: World<G>, v: World<G>, history: seq<Event>, gone: set<string>)
    requires v.vanished == w.vanished && forall i :: 0 <= i < |history| ==> history[i].kind != REMOVE_USER
    requires forall i :: 0 <= i < |history| ==> history[i].kind != PUT_USER
    ensures AllAlike(w, v, history, gone)
  {
    var left := Without(history, gone);
    forall e | e in left && !IsLate(v, e) ensures Alike(w, v, history, left, e) {
      ComesFrom(history, gone, e);
      assert !Suppressed(w, history, e);
      assert !Suppressed(v, left, e) by {
        forall i | 0 <= i < |left| ensures left[i].kind != REMOVE_USER {
          ComesFrom(history, gone, left[i]);
        }
      }
      var k :| 0 <= k < |history| && history[k] == e;
    }
  }
}
