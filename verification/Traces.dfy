/** The steps a migration's moderation may take, and what every trace of such
    steps keeps. */
module Traces {
  import opened Text
  import opened Events
  import opened EventLists
  import opened Moderation
  import opened GroupActions

  predicate RecreateOf(e: Event, gid: string) {
    e.kind == CREATE_GROUP && HasTag(e.tags, "h", gid)
  }

  function Recreates(stored: seq<Event>, gid: string): set<string> {
    set i | 0 <= i < |stored| && RecreateOf(stored[i], gid) :: stored[i].id
  }

  ghost predicate NoneRecreate(stored: seq<Event>, gids: set<string>) {
    forall e, gid {:trigger RecreateOf(e, gid)} :: e in stored && gid in gids ==> !RecreateOf(e, gid)
  }

  lemma NoneRecreateSnoc(before: seq<Event>, after: seq<Event>, gids: set<string>, gid: string, wider: set<string>)
    requires NoneRecreate(before, gids) && forall e :: e in after ==> e in before && !RecreateOf(e, gid)
    requires wider <= gids + {gid}
    ensures NoneRecreate(after, wider)
  {
  }

  /** How a database came about: an action was performed on it, the creates of a
      group were swept out of it, or a replay ran through. */
  datatype Trace =
    | Begin(stored: seq<Event>)
    | Acted(before: Trace, action: Event)
    | Swept(before: Trace, gid: string)
    | Passed(before: Trace)

  /** What is stored after a trace. */
  function Now(t: Trace): seq<Event> {
    match t
    case Begin(stored) => stored
    case Acted(before, e) => AfterAction(Now(before), e)
    case Swept(before, gid) => Without(Now(before), Recreates(Now(before), gid))
    case Passed(before) => Now(before)
  }

  function Origin(t: Trace): seq<Event> {
    match t
    case Begin(stored) => stored
    case Acted(before, _) => Origin(before)
    case Swept(before, _) => Origin(before)
    case Passed(before) => Origin(before)
  }

  function Applied(t: Trace): set<string> {
    match t
    case Begin(_) => {}
    case Acted(before, e) => Applied(before) + {e.id}
    case Swept(before, _) => Applied(before)
    case Passed(before) => Applied(before)
  }

  function Uncreated(t: Trace): set<string> {
    match t
    case Begin(_) => {}
    case Acted(before, e) => Uncreated(before) + Uncreates(Now(before), e)
    case Swept(before, _) => Uncreated(before)
    case Passed(before) => Uncreated(before)
  }

  /** What a replay of the database accepts, in order. */
  function Accepts<G>(w: World<G>, stored: seq<Event>): seq<Event> {
    Replay(w, Moderations(stored)).accepted
  }

  function Joins(accepted: seq<Event>): set<string> {
    set i | 0 <= i < |accepted| && accepted[i].kind == JOIN :: accepted[i].id
  }

  /** The joins accepted before an event was. */
  function JoinsBefore(accepted: seq<Event>, e: Event): set<string> {
    if accepted == [] || accepted[0] == e then {}
    else (if accepted[0].kind == JOIN then {accepted[0].id} else {}) + JoinsBefore(accepted[1..], e)
  }

  /** The joins some replay of the trace accepted: those before each action it
      performed, where it may have stopped, and all of one that ran through. */
  function Admitted<G>(w: World<G>, t: Trace): set<string> {
    match t
    case Begin(_) => {}
    case Acted(before, e) => Admitted(w, before) + JoinsBefore(Accepts(w, Now(before)), e)
    case Swept(before, _) => Admitted(w, before)
    case Passed(before) => Admitted(w, before) + Joins(Accepts(w, Now(before)))
  }

  /** Every action is performed once and on the authority of a replay of what
      was stored at that moment; only groups such an action marked are swept; and
      a replay that runs through leaves no action it authorises unperformed. */
  ghost predicate Lawful<G>(w: World<G>, t: Trace) {
    match t
    case Begin(stored) => UniqueIds(stored)
    case Acted(before, e) =>
      Lawful(w, before) && IsAction(e) && e.id !in Applied(before) && e in Accepts(w, Now(before))
    case Swept(before, gid) => Lawful(w, before) && gid in Uncreated(before)
    case Passed(before) => Lawful(w, before) && Stable(w, Moderations(Now(before)), Applied(before))
  }

  /** A step that removes an event: an action that reaches it, or the sweep of a
      group it would re-create. */
  ghost predicate TakenOut(t: Trace, e: Event) {
    match t
    case Begin(_) => false
    case Acted(before, a) => TakenOut(before, e) || (e in Now(before) && e.id in RemovedBy(Now(before), a))
    case Swept(before, gid) => TakenOut(before, e) || (e in Now(before) && RecreateOf(e, gid))
    case Passed(before) => TakenOut(before, e)
  }

  // ----- what every trace keeps -----

  /** Nothing is added or moved: what is stored is the original less some events. */
  lemma {:induction false} NowIsWithout(t: Trace) returns (gone: set<string>)
    ensures Now(t) == Without(Origin(t), gone)
  {
    match t {
      case Begin(stored) =>
        gone := {};
        WithoutNothing(stored, gone);
      case Acted(before, e) =>
        var g := NowIsWithout(before);
        WithoutTwice(Origin(before), g, RemovedBy(Now(before), e));
        gone := g + RemovedBy(Now(before), e);
      case Swept(before, gid) =>
        var g := NowIsWithout(before);
        WithoutTwice(Origin(before), g, Recreates(Now(before), gid));
        gone := g + Recreates(Now(before), gid);
      case Passed(before) =>
        gone := NowIsWithout(before);
    }
  }

  lemma {:induction false} LawfulOrigin<G>(w: World<G>, t: Trace)
    requires Lawful(w, t)
    ensures UniqueIds(Origin(t))
  {
    if !t.Begin? {
      LawfulOrigin(w, t.before);
    }
  }

  lemma NowUnique<G>(w: World<G>, t: Trace)
    requires Lawful(w, t)
    ensures UniqueIds(Now(t)) && Ids(Now(t)) <= Ids(Origin(t))
  {
    LawfulOrigin(w, t);
    var gone := NowIsWithout(t);
    WithoutUnique(Origin(t), gone);
    WithoutShrinks(Origin(t), gone);
  }

  lemma RecreatesExactly(stored: seq<Event>, gid: string, e: Event)
    requires UniqueIds(stored) && e in stored
    ensures e.id in Recreates(stored, gid) <==> RecreateOf(e, gid)
  {
    var k :| 0 <= k < |stored| && stored[k] == e;
    if e.id in Recreates(stored, gid) {
      var j :| 0 <= j < |stored| && RecreateOf(stored[j], gid) && stored[j].id == e.id;
      assert j == k;
    }
  }

  /** Nothing disappears but by a lawful step: a stored event is gone exactly
      when an authorised action reached it or it would have re-created a group
      such an action marked. */
  lemma {:induction false} RemovalsAccounted<G>(w: World<G>, t: Trace, e: Event)
    requires Lawful(w, t) && e in Origin(t)
    ensures e !in Now(t) <==> TakenOut(t, e)
  {
    if !t.Begin? {
      RemovalsAccounted(w, t.before, e);
      NowUnique(w, t.before);
      if t.Swept? && e in Now(t.before) {
        RecreatesExactly(Now(t.before), t.gid, e);
      }
    }
  }

  /** How often an action was performed. */
  function Times(t: Trace, id: string): nat {
    match t
    case Begin(_) => 0
    case Acted(before, e) => Times(before, id) + if e.id == id then 1 else 0
    case Swept(before, _) => Times(before, id)
    case Passed(before) => Times(before, id)
  }

  lemma AcceptedIsStored<G>(w: World<G>, stored: seq<Event>, e: Event)
    requires e in Accepts(w, stored)
    ensures e.id in Ids(stored)
  {
    ReplayFrom(w, Moderations(stored));
    ModerationsShrink(stored);
    var k :| 0 <= k < |Accepts(w, stored)| && Accepts(w, stored)[k] == e;
    assert Comes(Moderations(stored), Accepts(w, stored)[k]);
    assert e.id in Ids(Moderations(stored));
  }

  /** Each action is performed once, and only stored ones are. */
  lemma {:induction false} AppliedOnce<G>(w: World<G>, t: Trace, id: string)
    requires Lawful(w, t)
    ensures Times(t, id) == if id in Applied(t) then 1 else 0
    ensures id in Applied(t) ==> id in Ids(Origin(t))
  {
    if !t.Begin? {
      AppliedOnce(w, t.before, id);
      if t.Acted? && t.action.id == id {
        AcceptedIsStored(w, Now(t.before), t.action);
        NowUnique(w, t.before);
      }
    }
  }

  lemma PurgeRemovesItself<G>(w: World<G>, stored: seq<Event>, e: Event)
    requires !w.startup && e in Accepts(w, stored) && e.kind == DELETE_GROUP
    ensures e.id in PurgedBy(stored, e)
  {
    var accepted, history := Accepts(w, stored), Moderations(stored);
    ReplayFrom(w, history);
    AcceptedAdmissible(w, Prepared(w, history));
    var k :| 0 <= k < |accepted| && accepted[k] == e;
    assert Comes(history, accepted[k]);
    assert GroupId(accepted[k]).Some?;
    assert e in history;
    var j :| 0 <= j < |stored| && stored[j] == e;
    assert InGroup(stored[j], GroupId(e).value);
  }

  /** A performed purge removes itself, so every applied action still stored is
      a kind:9005. */
  lemma {:induction false} AppliedLeftAreDeletions<G>(w: World<G>, t: Trace, e: Event)
    requires !w.startup && Lawful(w, t) && e in Now(t) && e.id in Applied(t)
    ensures e.kind == DELETE_EVENT
  {
    if t.Acted? && t.action.id == e.id {
      ActionIsStored(w, t.before, t.action, e);
      if t.action.kind == DELETE_GROUP {
        PurgeRemovesItself(w, Now(t.before), t.action);
      }
    } else {
      AppliedLeftAreDeletions(w, t.before, e);
    }
  }

  lemma ActionIsStored<G>(w: World<G>, t: Trace, a: Event, e: Event)
    requires Lawful(w, t) && a in Accepts(w, Now(t)) && IsAction(a) && e in Now(t) && e.id == a.id
    ensures a == e
  {
    ReplayFrom(w, Moderations(Now(t)));
    var k :| 0 <= k < |Accepts(w, Now(t))| && Accepts(w, Now(t))[k] == a;
    assert Comes(Moderations(Now(t)), Accepts(w, Now(t))[k]);
    NowUnique(w, t);
    UniqueEvent(Now(t), a, e);
  }

  // ----- the joins a replay accepted so far -----

  lemma {:induction false} JoinsBeforeIs(before: seq<Event>, e: Event, accepted: seq<Event>)
    requires e !in before && before + [e] <= accepted
    ensures JoinsBefore(accepted, e) == Joins(before)
    decreases |before|
  {
    if before == [] {
      assert accepted[0] == ([] + [e])[0];
    } else {
      assert accepted[0] == (before + [e])[0] == before[0];
      assert before[1..] + [e] <= accepted[1..] by {
        assert (before + [e])[1..] == before[1..] + [e];
      }
      JoinsBeforeIs(before[1..], e, accepted[1..]);
      JoinsCons(before);
    }
  }

  lemma JoinsCons(events: seq<Event>)
    requires events != []
    ensures Joins(events) == Joins(events[1..]) + if events[0].kind == JOIN then {events[0].id} else {}
  {
    var rest := events[1..];
    forall id | id in Joins(events) ensures id in Joins(rest) || (events[0].kind == JOIN && id == events[0].id) {
      var i :| 0 <= i < |events| && events[i].kind == JOIN && events[i].id == id;
      assert i > 0 ==> rest[i - 1] == events[i];
    }
    forall id | id in Joins(rest) ensures id in Joins(events) {
      var i :| 0 <= i < |rest| && rest[i].kind == JOIN && rest[i].id == id;
      assert events[i + 1] == rest[i];
    }
  }

  lemma JoinsSnoc(events: seq<Event>, e: Event)
    ensures Joins(events + [e]) == Joins(events) + if e.kind == JOIN then {e.id} else {}
  {
    var all := events + [e];
    assert all[|events|] == e;
    forall id | id in Joins(events) ensures id in Joins(all) {
      var i :| 0 <= i < |events| && events[i].kind == JOIN && events[i].id == id;
      assert all[i] == events[i];
    }
  }

  // ----- what the final replay drops -----

  /** The events a replay refused, and those it never got to judge. */
  ghost function Undecided<G>(s: Walk<G>): set<Event> {
    Elements(s.refused) + Elements(s.held)
  }

  predicate Drops(e: Event, applied: set<string>, admitted: set<string>, dropped: set<string>) {
    e.kind != DELETE_EVENT && e.id !in applied && e.id !in admitted && e.id !in dropped
  }

  ghost function DropIds(
    events: set<Event>, applied: set<string>, admitted: set<string>, dropped: set<string>): set<string> {
    set e | e in events && Drops(e, applied, admitted, dropped) :: e.id
  }

  lemma DropIdsSnoc(events: seq<Event>, i: nat, applied: set<string>, admitted: set<string>, dropped: set<string>)
    requires i < |events|
    ensures
      var before := DropIds(Elements(events[..i]), applied, admitted, dropped);
      DropIds(Elements(events[..i + 1]), applied, admitted, dropped)
        == if Drops(events[i], applied, admitted, dropped) then before + {events[i].id} else before
  {
    assert Elements(events[..i + 1]) == Elements(events[..i]) + {events[i]};
  }

  /** The ids the final replay of a trace's database drops. */
  ghost function Dropped<G>(w: World<G>, t: Trace): set<string> {
    DropIds(Undecided(Replay(w, Moderations(Now(t)))), Applied(t), Admitted(w, t), {})
  }

  /** What is left at the end. */
  ghost function Remainder<G>(w: World<G>, t: Trace): seq<Event> {
    Without(Now(t), Dropped(w, t))
  }

  ghost predicate LeftUndecided<G>(w: World<G>, stored: seq<Event>, id: string) {
    var s := Replay(w, Moderations(stored));
    id in Ids(s.refused) || id in Ids(s.held)
  }

  lemma UndecidedIsStored<G>(w: World<G>, stored: seq<Event>, f: Event)
    requires f in Undecided(Replay(w, Moderations(stored)))
    ensures Comes(Moderations(stored), f) && LeftUndecided(w, stored, f.id)
  {
    var s := Replay(w, Moderations(stored));
    ReplayFrom(w, Moderations(stored));
    if f in s.refused {
      var i :| 0 <= i < |s.refused| && s.refused[i] == f;
    } else {
      var i :| 0 <= i < |s.held| && s.held[i] == f;
    }
  }

  /** The final replay drops exactly the events it refused or never judged that
      are neither a kind:9005, nor an applied action, nor a join that any replay
      of the migration accepted. */
  lemma DropsExactly<G>(w: World<G>, t: Trace, e: Event)
    requires Lawful(w, t) && e in Now(t)
    ensures e !in Remainder(w, t) <==>
      LeftUndecided(w, Now(t), e.id) && e.kind != DELETE_EVENT && e.id !in Applied(t) && e.id !in Admitted(w, t)
  {
    var stored := Now(t);
    var s := Replay(w, Moderations(stored));
    NowUnique(w, t);
    if e.id in Dropped(w, t) {
      var f :| f in Undecided(s) && Drops(f, Applied(t), Admitted(w, t), {}) && f.id == e.id;
      UndecidedIsStored(w, stored, f);
      SameKind(stored, f, e);
    }
    if LeftUndecided(w, stored, e.id) && Drops(e, Applied(t), Admitted(w, t), {}) {
      var f := UndecidedEvent(s, e.id);
      UndecidedIsStored(w, stored, f);
      SameKind(stored, f, e);
      assert e.id in Dropped(w, t);
    }
  }

  lemma UndecidedEvent<G>(s: Walk<G>, id: string) returns (f: Event)
    requires id in Ids(s.refused) || id in Ids(s.held)
    ensures f in Undecided(s) && f.id == id
  {
    if id in Ids(s.refused) {
      var i :| 0 <= i < |s.refused| && s.refused[i].id == id;
      f := s.refused[i];
    } else {
      var i :| 0 <= i < |s.held| && s.held[i].id == id;
      f := s.held[i];
    }
  }

  lemma SameKind(stored: seq<Event>, f: Event, e: Event)
    requires UniqueIds(stored) && Comes(Moderations(stored), f) && e in stored && f.id == e.id
    ensures f.kind == e.kind
  {
    var history := Moderations(stored);
    var i :| 0 <= i < |history| && SameButTags(history[i], f);
    UniqueEvent(stored, history[i], e);
  }

  /** In particular no join is dropped that any replay accepted. */
  lemma AdmittedJoinsStay<G>(w: World<G>, t: Trace, e: Event)
    requires Lawful(w, t) && e in Now(t) && e.id in Admitted(w, t)
    ensures e in Remainder(w, t)
  {
    DropsExactly(w, t, e);
  }

  /** A trace's joins are those of its replays: each was accepted by a replay of
      what was stored at some moment, and none is ever forgotten. */
  lemma {:induction false} AdmittedWereAccepted<G>(w: World<G>, t: Trace, id: string)
    requires Lawful(w, t) && id in Admitted(w, t)
    ensures exists u :: Within(u, t) && id in Joins(Accepts(w, Now(u)))
  {
    if id in Admitted(w, t.before) {
      AdmittedWereAccepted(w, t.before, id);
      var u :| Within(u, t.before) && id in Joins(Accepts(w, Now(u)));
      assert Within(u, t);
    } else {
      if t.Acted? {
        JoinsBeforeAreJoins(Accepts(w, Now(t.before)), t.action);
      }
      assert Within(t.before, t);
    }
  }

  ghost predicate Within(u: Trace, t: Trace) {
    u == t || (!t.Begin? && Within(u, t.before))
  }

  lemma {:induction false} JoinsBeforeAreJoins(accepted: seq<Event>, e: Event)
    ensures JoinsBefore(accepted, e) <= Joins(accepted)
    decreases |accepted|
  {
    if accepted != [] {
      JoinsBeforeAreJoins(accepted[1..], e);
      JoinsCons(accepted);
    }
  }
}
