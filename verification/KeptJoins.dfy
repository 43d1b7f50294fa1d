/** A join accepted while its group was open and refused once the opening was
    deleted: the migration keeps it, and the rebuild applies it. */
module KeptJoins {
  import opened Text
  import opened Events
  import opened EventLists
  import opened Moderation
  import opened ReplayOrder
  import opened GroupActions
  import opened Traces
  import opened Replays
  import opened Requests
  import opened Aftermath
  import opened SmallStore

  /** A group is closed, opened, joined while it is open by somebody else, and its
      founder has something deleted. */
  ghost predicate Edits(create: Event, close: Event, open: Event, join: Event, undo: Event) {
    && Sent(create, CREATE_GROUP, "g") && Sent(close, EDIT_GROUP, "g") && Sent(open, EDIT_GROUP, "g")
    && Sent(join, JOIN, "g") && Sent(undo, DELETE_EVENT, "g")
    && close.pubkey == open.pubkey == undo.pubkey == create.pubkey != join.pubkey
    && Closes(close) && !Closes(open) && FirstTagValue(join.tags, "code") == None
  }

  /** It is the opening that is deleted. */
  ghost predicate Undoes(create: Event, close: Event, open: Event, join: Event, undo: Event) {
    && Names(undo.tags, open.id) && !Names(undo.tags, create.id) && !Names(undo.tags, close.id)
    && !Names(undo.tags, join.id) && !Names(undo.tags, undo.id)
    && UniqueIds([create, close, open, join, undo])
  }

  /** Where a replay stands: the group as its create founds it or closed, and
      with the member who joined or without. */
  function Where(
    create: Event, closed: bool, joined: set<string>, accepted: seq<Event>, refused: seq<Event>): Walk<Groups> {
    Walk(map["g" := Group(closed, {create.pubkey} + joined, {create.pubkey})], [], 0, 0, accepted, refused)
  }

  lemma AtCreate(v: World<Groups>, create: Event)
    requires IsSmall(v) && Sent(create, CREATE_GROUP, "g")
    ensures At(v, [create], Where(create, false, {}, [create], []))
  {
    FoundedAt(v, create, "g");
    assert {create.pubkey} + {} == {create.pubkey};
  }

  lemma Edited(create: Event, edit: Event, closed: bool)
    requires Sent(edit, EDIT_GROUP, "g")
    ensures Applying(Where(create, closed, {}, [], []).groups, edit) == Where(create, Closes(edit), {}, [], []).groups
  {
    var g := Where(create, closed, {}, [], []).groups;
    assert Changed(g["g"], edit) == Group(Closes(edit), {create.pubkey} + {}, {create.pubkey});
  }

  lemma AtEdit(v: World<Groups>, create: Event, edit: Event, events: seq<Event>, closed: bool, accepted: seq<Event>)
    requires IsSmall(v) && Sent(edit, EDIT_GROUP, "g") && edit.pubkey == create.pubkey
    requires At(v, events, Where(create, closed, {}, accepted, []))
    ensures At(v, events + [edit], Where(create, Closes(edit), {}, accepted + [edit], []))
  {
    var s := Where(create, closed, {}, accepted, []);
    InGroupAlready(v, s.groups, edit, "g");
    AdminAccepted(v, s, edit, "g");
    Edited(create, edit, closed);
    AtNext(v, events, s, edit, Where(create, Closes(edit), {}, accepted + [edit], []));
  }

  lemma Joined(create: Event, join: Event, closed: bool)
    requires Sent(join, JOIN, "g")
    ensures
      Applying(Where(create, closed, {}, [], []).groups, join) == Where(create, closed, {join.pubkey}, [], []).groups
  {
    assert {create.pubkey} + {} + {join.pubkey} == {create.pubkey} + {join.pubkey};
  }

  lemma AtJoin(v: World<Groups>, create: Event, join: Event, events: seq<Event>, closed: bool, accepted: seq<Event>)
    requires IsSmall(v) && Sent(join, JOIN, "g") && (v.startup || !closed)
    requires At(v, events, Where(create, closed, {}, accepted, []))
    ensures At(v, events + [join], Where(create, closed, {join.pubkey}, accepted + [join], []))
  {
    var s := Where(create, closed, {}, accepted, []);
    InGroupAlready(v, s.groups, join, "g");
    JoinAccepted(v, s, join, "g");
    Joined(create, join, closed);
    AtNext(v, events, s, join, Where(create, closed, {join.pubkey}, accepted + [join], []));
  }

  lemma AtRefusal(w: World<Groups>, create: Event, join: Event, events: seq<Event>, accepted: seq<Event>)
    requires IsFirst(w) && Sent(join, JOIN, "g") && FirstTagValue(join.tags, "code") == None
    requires At(w, events, Where(create, true, {}, accepted, []))
    ensures At(w, events + [join], Where(create, true, {}, accepted, [join]))
  {
    var s := Where(create, true, {}, accepted, []);
    InGroupAlready(w, s.groups, join, "g");
    JoinRefused(w, s, join, "g");
    AtNext(w, events, s, join, Where(create, true, {}, accepted, [join]));
  }

  lemma AtUndo(
    v: World<Groups>, create: Event, undo: Event, events: seq<Event>,
    closed: bool, joined: set<string>, accepted: seq<Event>, refused: seq<Event>)
    requires IsSmall(v) && Sent(undo, DELETE_EVENT, "g") && undo.pubkey == create.pubkey
    requires At(v, events, Where(create, closed, joined, accepted, refused))
    ensures At(v, events + [undo], Where(create, closed, joined, accepted + [undo], refused))
  {
    var s := Where(create, closed, joined, accepted, refused);
    InGroupAlready(v, s.groups, undo, "g");
    AdminAccepted(v, s, undo, "g");
    AtNext(v, events, s, undo, Where(create, closed, joined, accepted + [undo], refused));
  }

  lemma AtClosed(v: World<Groups>, create: Event, close: Event)
    requires IsSmall(v) && Sent(create, CREATE_GROUP, "g") && Sent(close, EDIT_GROUP, "g")
    requires close.pubkey == create.pubkey && Closes(close)
    ensures At(v, [create, close], Where(create, true, {}, [create, close], []))
  {
    AtCreate(v, create);
    assert [create] + [close] == [create, close];
    AtEdit(v, create, close, [create], false, [create]);
  }

  lemma AtOpened(w: World<Groups>, create: Event, close: Event, open: Event, join: Event, undo: Event)
    requires IsFirst(w) && Edits(create, close, open, join, undo)
    ensures
      var history := [create, close, open, join, undo];
      At(w, history, Where(create, false, {join.pubkey}, history, []))
  {
    var three, four := [create, close, open], [create, close, open, join];
    assert [create, close] + [open] == three && three + [join] == four;
    assert four + [undo] == [create, close, open, join, undo];
    AtClosed(w, create, close);
    AtEdit(w, create, open, [create, close], true, [create, close]);
    AtJoin(w, create, join, three, false, three);
    AtUndo(w, create, undo, four, false, {join.pubkey}, four, []);
  }

  lemma AtShut(w: World<Groups>, create: Event, close: Event, open: Event, join: Event, undo: Event)
    requires IsFirst(w) && Edits(create, close, open, join, undo)
    ensures At(w, [create, close, join, undo], Where(create, true, {}, [create, close, undo], [join]))
  {
    var three := [create, close, join];
    assert [create, close] + [join] == three && three + [undo] == [create, close, join, undo];
    assert [create, close] + [undo] == [create, close, undo];
    AtClosed(w, create, close);
    AtRefusal(w, create, join, [create, close], [create, close]);
    AtUndo(w, create, undo, three, true, {}, [create, close], [join]);
  }

  lemma AtRebuilt(v: World<Groups>, create: Event, close: Event, open: Event, join: Event, undo: Event)
    requires IsSmall(v) && v.startup && Edits(create, close, open, join, undo)
    ensures
      var history := [create, close, join, undo];
      At(v, history, Where(create, true, {join.pubkey}, history, []))
  {
    var three := [create, close, join];
    assert [create, close] + [join] == three && three + [undo] == [create, close, join, undo];
    AtClosed(v, create, close);
    AtJoin(v, create, join, [create, close], true, [create, close]);
    AtUndo(v, create, undo, three, true, {join.pubkey}, three, []);
  }

  lemma AllQuiet(v: World<Groups>, create: Event, close: Event, open: Event, join: Event, undo: Event)
    requires IsSmall(v) && v.vanished == {} && Edits(create, close, open, join, undo)
    ensures Quiet(v, [create, close, open, join, undo]) && Quiet(v, [create, close, join, undo])
  {
  }

  lemma OpenReplay(w: World<Groups>, create: Event, close: Event, open: Event, join: Event, undo: Event)
    requires IsFirst(w) && Edits(create, close, open, join, undo)
    ensures Replay(w, [create, close, open, join, undo]).accepted == [create, close, open, join, undo]
  {
    var history := [create, close, open, join, undo];
    AllQuiet(w, create, close, open, join, undo);
    AtOpened(w, create, close, open, join, undo);
    QuietAt(w, history, Where(create, false, {join.pubkey}, history, []));
  }

  lemma ShutReplay(w: World<Groups>, create: Event, close: Event, open: Event, join: Event, undo: Event)
    requires IsFirst(w) && Edits(create, close, open, join, undo)
    ensures
      var history := [create, close, join, undo];
      && Replay(w, history) == Where(create, true, {}, [create, close, undo], [join])
      && Roomy(w, Prepared(w, history))
  {
    AllQuiet(w, create, close, open, join, undo);
    AtShut(w, create, close, open, join, undo);
    QuietAt(w, [create, close, join, undo], Where(create, true, {}, [create, close, undo], [join]));
  }

  lemma RebuildJoins(v: World<Groups>, create: Event, close: Event, open: Event, join: Event, undo: Event)
    requires IsSmall(v) && v.startup && v.vanished == {} && Edits(create, close, open, join, undo)
    ensures Member(Replay(v, [create, close, join, undo]).groups, "g", join.pubkey)
  {
    var history := [create, close, join, undo];
    AllQuiet(v, create, close, open, join, undo);
    AtRebuilt(v, create, close, open, join, undo);
    QuietAt(v, history, Where(create, true, {join.pubkey}, history, []));
  }

  lemma UndoingRemoves(create: Event, close: Event, open: Event, join: Event, undo: Event)
    requires Edits(create, close, open, join, undo) && Undoes(create, close, open, join, undo)
    ensures AfterAction([create, close, open, join, undo], undo) == [create, close, join, undo]
  {
    var stored := [create, close, open, join, undo];
    var gone := DeletedBy(stored, undo);
    assert Reaches(undo, stored[2]);
    assert gone == {open.id};
    assert stored == [create, close] + [open] + [join, undo];
    WithoutOnly([create, close], open, [join, undo], gone);
  }

  function Undone(create: Event, close: Event, open: Event, join: Event, undo: Event): Trace {
    Passed(Acted(Begin([create, close, open, join, undo]), undo))
  }

  /** A migration that performs one action and is then done. */
  lemma OneAction<G>(w: World<G>, stored: seq<Event>, e: Event, left: seq<Event>)
    requires UniqueIds(stored) && e in Accepts(w, stored) && IsAction(e) && AfterAction(stored, e) == left
    requires Stable(w, Moderations(left), {e.id})
    ensures
      var t := Passed(Acted(Begin(stored), e));
      && Lawful(w, t) && Now(t) == left && Applied(t) == {e.id}
      && JoinsBefore(Accepts(w, stored), e) <= Admitted(w, t)
  {
    var acted := Acted(Begin(stored), e);
    assert Applied(acted) == {} + {e.id} == {e.id};
    assert JoinsBefore(Accepts(w, stored), e) <= Admitted(w, acted);
  }

  lemma JoinIsBefore(before: seq<Event>, join: Event, e: Event)
    requires join in before && join.kind == JOIN && UniqueIds(before + [e])
    ensures join.id in JoinsBefore(before + [e], e)
  {
    var all := before + [e];
    forall i | 0 <= i < |before| ensures before[i] != e {
      assert all[i].id != all[|before|].id;
    }
    JoinsBeforeIs(before, e, all);
    var i :| 0 <= i < |before| && before[i] == join;
  }

  /** A join that some replay admitted and the last one refused is kept. */
  lemma KeptJoin<G>(w: World<G>, p: Policy, t: Trace, join: Event)
    requires Replay(w, History(t)).refused == [join] && Replay(w, History(t)).held == []
    requires join in Now(t) && join.id in Admitted(w, t) && NoRequest(p, Now(t))
    ensures !AdmittedStand(w, p, t) && Remainder(w, t) == Now(t)
  {
    var s := Replay(w, History(t));
    assert s.refused + s.held == [join];
    OneUndecided(s, join, Applied(t), Admitted(w, t));
    WithoutNothing(Now(t), {});
    NothingRequested(w, p, t, true, w.now);
    assert s.refused[0].id in Ids(s.refused);
  }

  lemma AllReplayed(create: Event, close: Event, open: Event, join: Event, undo: Event)
    requires IsGroupKind(create.kind) && IsGroupKind(close.kind) && IsGroupKind(open.kind)
    requires IsGroupKind(join.kind) && IsGroupKind(undo.kind)
    ensures
      var stored, left := [create, close, open, join, undo], [create, close, join, undo];
      Moderations(stored) == stored && Moderations(left) == left
  {
    Regrouped(create, close, open, join, undo);
    ModerationsOfThree(create, close, open);
    ModerationsOfTwoMore([create, close, open], join, undo);
    ModerationsOfTwo(create, close);
    ModerationsOfTwoMore([create, close], join, undo);
  }

  lemma Regrouped(a: Event, b: Event, c: Event, d: Event, e: Event)
    ensures [a, b, c, d, e] == [a, b, c] + [d] + [e] && [a, b, d, e] == [a, b] + [d] + [e]
  {
  }

  lemma ModerationsOfTwoMore(events: seq<Event>, a: Event, b: Event)
    requires Moderations(events) == events && IsGroupKind(a.kind) && IsGroupKind(b.kind)
    ensures Moderations(events + [a] + [b]) == events + [a] + [b]
  {
    ModerationsSnoc(events, a);
    ModerationsSnoc(events + [a], b);
  }

  lemma UndoneBegins(w: World<Groups>, create: Event, close: Event, open: Event, join: Event, undo: Event)
    requires IsFirst(w) && Edits(create, close, open, join, undo) && Undoes(create, close, open, join, undo)
    ensures
      var stored := [create, close, open, join, undo];
      && Accepts(w, stored) == stored && undo in stored && join.id in JoinsBefore(stored, undo)
      && AfterAction(stored, undo) == Moderations([create, close, join, undo]) == [create, close, join, undo]
  {
    var before := [create, close, open, join];
    assert before + [undo] == [create, close, open, join, undo];
    assert before[3] == join && (before + [undo])[4] == undo;
    AllReplayed(create, close, open, join, undo);
    OpenReplay(w, create, close, open, join, undo);
    JoinIsBefore(before, join, undo);
    UndoingRemoves(create, close, open, join, undo);
  }

  lemma UndoneIsLawful(w: World<Groups>, create: Event, close: Event, open: Event, join: Event, undo: Event)
    requires IsFirst(w) && Edits(create, close, open, join, undo) && Undoes(create, close, open, join, undo)
    ensures
      var t := Undone(create, close, open, join, undo);
      Lawful(w, t) && Now(t) == History(t) == [create, close, join, undo] && join.id in Admitted(w, t)
  {
    UndoneBegins(w, create, close, open, join, undo);
    UndoneIsStable(w, create, close, open, join, undo);
    OneAction(w, [create, close, open, join, undo], undo, [create, close, join, undo]);
  }

  lemma UndoneIsStable(w: World<Groups>, create: Event, close: Event, open: Event, join: Event, undo: Event)
    requires IsFirst(w) && Edits(create, close, open, join, undo)
    ensures Stable(w, [create, close, join, undo], {undo.id})
  {
    ShutReplay(w, create, close, open, join, undo);
  }

  /** Everything the rebuild needs holds but that admitted joins stand. */
  ghost predicate RebuildButStand<G(!new)>(w: World<G>, p: Policy, t: Trace, now: nat) {
    && Inert(w) && Lawful(w, t) && Roomy(w, Prepared(w, History(t))) && Spared(w, p, t) && !AdmittedStand(w, p, t)
    && AllAlike(w, Then(w, p, t, true, now), History(t), Gone(w, p, t))
  }

  lemma KeptConditions<G(!new)>(w: World<G>, p: Policy, t: Trace, join: Event, now: nat)
    requires Inert(w) && Lawful(w, t) && Roomy(w, Prepared(w, History(t)))
    requires Replay(w, History(t)).refused == [join] && Replay(w, History(t)).held == []
    requires Now(t) == History(t) && join in Now(t) && join.id in Admitted(w, t)
    requires Quiet(w, History(t))
    ensures RebuildButStand(w, p, t, now) && Remainder(w, t) == Now(t)
  {
    OnlyModeration(p, Now(t));
    NothingRequested(w, p, t, true, now);
    KeptJoin(w, p, t, join);
    QuietIsAlike(w, Then(w, p, t, true, now), History(t), Gone(w, p, t));
  }

  lemma UndoneConditions(
    w: World<Groups>, p: Policy, t: Trace, create: Event, close: Event, open: Event, join: Event, undo: Event, now: nat)
    requires IsFirst(w) && Edits(create, close, open, join, undo) && Lawful(w, t) && join.id in Admitted(w, t)
    requires Now(t) == History(t) == [create, close, join, undo]
    ensures RebuildButStand(w, p, t, now) && Remainder(w, t) == Now(t)
  {
    ShutReplay(w, create, close, open, join, undo);
    SmallIsInert(w);
    AllQuiet(w, create, close, open, join, undo);
    assert Now(t)[2] == join;
    KeptConditions(w, p, t, join, now);
  }

  lemma LaterJoins(
    w: World<Groups>, p: Policy, create: Event, close: Event, open: Event, join: Event, undo: Event, now: nat)
    requires IsFirst(w) && Edits(create, close, open, join, undo) && w.now <= now
    ensures Member(Replay(w.(startup := true, now := now), [create, close, join, undo]).groups, "g", join.pubkey)
  {
    RebuildJoins(w.(startup := true, now := now), create, close, open, join, undo);
  }

  /** A join accepted while its group was open, and refused once the opening was
      deleted, is kept; the rebuild applies it, and the groups differ. */
  lemma AdmittedJoinReturns(
    w: World<Groups>, p: Policy, create: Event, close: Event, open: Event, join: Event, undo: Event, now: nat)
    requires IsFirst(w) && Edits(create, close, open, join, undo) && Undoes(create, close, open, join, undo)
    requires w.now <= now
    requires Sorted(w.arrived, [create, close, open, join, undo])
    ensures
      var t := Undone(create, close, open, join, undo);
      && RebuildButStand(w, p, t, now) && !Member(Replay(w, History(t)).groups, "g", join.pubkey)
      && Member(Replay(Then(w, p, t, true, now), Moderations(Left(w, p, t))).groups, "g", join.pubkey)
  {
    var t, left := Undone(create, close, open, join, undo), [create, close, join, undo];
    UndoneIsLawful(w, create, close, open, join, undo);
    UndoneConditions(w, p, t, create, close, open, join, undo, now);
    ShutReplay(w, create, close, open, join, undo);
    LaterOver(w, p, t, true, now, left);
    LaterJoins(w, p, create, close, open, join, undo, now);
  }

  lemma NamesExactly(gid: string, target: string, id: string)
    ensures Names([["h", gid], ["e", target]], id) <==> EqIgnoreCase(target, id)
  {
    var tags := [["h", gid], ["e", target]];
    assert tags[1][1] == target;
  }

  /** For instance these. */
  function Such(): seq<Event> {
    [Event("1", "alice", 1, CREATE_GROUP, [["h", "g"]], "", ""),
     Event("2", "alice", 2, EDIT_GROUP, [["h", "g"], ["closed"]], "", ""),
     Event("3", "alice", 3, EDIT_GROUP, [["h", "g"]], "", ""),
     Event("4", "bob", 4, JOIN, [["h", "g"]], "", ""),
     Event("5", "alice", 5, DELETE_EVENT, [["h", "g"], ["e", "3"]], "", "")]
  }

  lemma SuchEdits()
    ensures Edits(Such()[0], Such()[1], Such()[2], Such()[3], Such()[4])
  {
    assert Such()[1].tags[1][0] == "closed";
  }

  lemma SuchUndoing()
    ensures Undoes(Such()[0], Such()[1], Such()[2], Such()[3], Such()[4])
  {
    forall id ensures Names(Such()[4].tags, id) <==> EqIgnoreCase("3", id) {
      NamesExactly("g", "3", id);
    }
    assert Lower("3")[0] == '3';
    assert Lower("1")[0] == '1' && Lower("2")[0] == '2' && Lower("4")[0] == '4' && Lower("5")[0] == '5';
  }

  lemma SuchOrder()
    ensures Sorted(map[], Such())
  {
  }
}
