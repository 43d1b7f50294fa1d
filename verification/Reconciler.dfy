/** The moderation fixpoint of a migration: replays are restarted until no
    authorised action is left, re-created groups are swept out, and the refused
    events of the final replay are dropped. */
module Reconciler {
  import opened Text
  import opened Events
  import opened EventLists
  import opened Moderation
  import opened GroupActions
  import opened Traces
  import opened GroupLaws

  /** Looks up each target of a kind:9005 for a create of its own group. */
  method LooksUpCreate(stored: seq<Event>, e: Event) returns (found: bool)
    ensures found <==> FindsCreate(stored, e)
  {
    found := false;
    for i := 0 to |e.tags|
      invariant found <==> exists j :: 0 <= j < i && FindsAt(stored, e, j)
    {
      if |e.tags[i]| >= 2 && e.tags[i][0] == "e" {
        var create := LookUp(stored, e.tags[i][1]);
        if create.Some? && create.value.kind == CREATE_GROUP && GroupId(create.value).Some?
          && GroupId(create.value) == GroupId(e)
        {
          assert FindsAt(stored, e, i);
          found := true;
        }
      }
      assert FindsAt(stored, e, i) ==> found;
    }
  }

  /** What performing an action does: what it leaves stored, the group it marks
      as uncreated, and whether a state event went. */
  method Effects(stored: seq<Event>, e: Event) returns (after: seq<Event>, uncreated: set<string>, changed: bool)
    requires IsAction(e)
    ensures after == AfterAction(stored, e) && Ids(after) <= Ids(stored)
    ensures UniqueIds(stored) ==> LeavesUnreached(stored, e, after)
    ensures uncreated == Uncreates(stored, e)
    ensures changed <==> e.kind == DELETE_GROUP || RemovesState(stored, DeletedBy(stored, e))
    ensures !changed ==> Moderations(after) == Moderations(stored)
  {
    ActionLeaves(stored, e);
    var gone := RemovedBy(stored, e);
    uncreated := {};
    if e.kind == DELETE_EVENT {
      var found := LooksUpCreate(stored, e);
      if GroupId(e).Some? && found {
        uncreated := {GroupId(e).value};
      }
      changed := RemovesState(stored, gone);
      if !changed {
        InertDeletion(stored, gone);
      }
    } else {
      changed := true;
    }
    WithoutShrinks(stored, gone);
    after := Without(stored, gone);
  }

  lemma ActionLeaves(stored: seq<Event>, e: Event)
    ensures UniqueIds(stored) ==> LeavesUnreached(stored, e, AfterAction(stored, e))
  {
    if UniqueIds(stored) {
      forall x | x in stored ensures x in AfterAction(stored, e) <==> !GoesBy(e, x) {
        RemovedExactly(stored, e, x);
      }
    }
  }

  /** Takes every create of one group out. */
  method Sweep(stored: seq<Event>, gid: string) returns (after: seq<Event>, removed: bool)
    ensures after == Without(stored, Recreates(stored, gid)) && Ids(after) <= Ids(stored)
    ensures !removed ==> after == stored
    ensures forall e :: e in after ==> e in stored && !RecreateOf(e, gid)
    ensures UniqueIds(stored) ==> LeavesOthers(stored, gid, after)
  {
    SweepLeaves(stored, gid);
    var gone := Recreates(stored, gid);
    removed := gone != {};
    if !removed {
      WithoutNothing(stored, gone);
    }
    WithoutShrinks(stored, gone);
    after := Without(stored, gone);
    forall e | e in after ensures e in stored && !RecreateOf(e, gid) {
      var i :| 0 <= i < |after| && after[i] == e;
      var j :| 0 <= j < |stored| && stored[j] == e;
    }
  }

  lemma SweepLeaves(stored: seq<Event>, gid: string)
    ensures UniqueIds(stored) ==> LeavesOthers(stored, gid, Without(stored, Recreates(stored, gid)))
  {
    if UniqueIds(stored) {
      forall e | e in stored
        ensures e in Without(stored, Recreates(stored, gid)) <==> !(e.kind == 9007 && HasTag(e.tags, "h", gid))
      {
        RecreatesExactly(stored, gid, e);
      }
    }
  }

  /** Whether no action is left to perform. */
  method AllPerformed(accepted: seq<Event>, applied: set<string>) returns (all: bool)
    ensures all <==> Performed(accepted, applied)
  {
    for i := 0 to |accepted|
      invariant Performed(accepted[..i], applied)
    {
      if IsAction(accepted[i]) && accepted[i].id !in applied {
        return false;
      }
    }
    assert accepted[..|accepted|] == accepted;
    return true;
  }

  class Reconciler<G(!new)> {
    const world: World<G>
    /** Everything stored, the moderation events in replay order. */
    var stored: seq<Event>
    var applied: set<string>
    var admittedJoins: set<string>
    var deletedCreates: set<string>
    var dropped: set<string>
    /** What was stored at first, and what was done since. */
    ghost const initial: seq<Event>
    ghost var trace: Trace

    constructor (world: World<G>, stored: seq<Event>)
      requires UniqueIds(stored)
      ensures this.world == world && this.stored == stored && initial == stored
      ensures Sound() && applied == {} && deletedCreates == {} && dropped == {}
    {
      this.world, this.stored, initial, trace := world, stored, stored, Begin(stored);
      applied, admittedJoins, deletedCreates, dropped := {}, {}, {}, {};
    }

    /** Only lawful steps were taken, and `applied` holds what they performed. */
    ghost predicate Valid()
      reads this
    {
      Lawful(world, trace) && applied == Applied(trace) && initial == Origin(trace)
    }

    /** Moreover, the database is what those steps left, and the creates of every
        group they marked are swept out or about to be. */
    ghost predicate Tracked()
      reads this
    {
      && Valid() && stored == Now(trace)
      && deletedCreates <= Uncreated(trace) && NoneRecreate(stored, Uncreated(trace) - deletedCreates)
    }

    /** Between replays, the admitted joins are exactly those the replays of the
        trace accepted; */
    ghost predicate Sound()
      reads this
    {
      Tracked() && admittedJoins == Admitted(world, trace)
    }

    /** within one, also those it has accepted so far. */
    ghost predicate Running(s: Walk<G>)
      reads this
    {
      && Tracked() && admittedJoins == Admitted(world, trace) + Joins(s.accepted)
      && s.accepted <= Accepts(world, stored) && Performed(s.accepted, applied)
    }

    /** Performs one authorised action. */
    method Perform(e: Event) returns (changed: bool)
      requires Tracked() && IsAction(e) && e.id !in applied && e in Accepts(world, stored)
      modifies this`stored, this`applied, this`trace, this`deletedCreates
      ensures Tracked() && trace == Acted(old(trace), e) && applied == old(applied) + {e.id}
      ensures stored == AfterAction(old(stored), e) && Ids(stored) <= Ids(old(stored))
      ensures changed <==> e.kind == DELETE_GROUP || RemovesState(old(stored), DeletedBy(old(stored), e))
      ensures !changed ==> Moderations(stored) == Moderations(old(stored))
      ensures deletedCreates == old(deletedCreates) + Uncreates(old(stored), e)
    {
      var after, uncreated;
      after, uncreated, changed := Effects(stored, e);
      FewerRecreate(stored, after, Uncreated(trace) - deletedCreates,
        (Uncreated(trace) + uncreated) - (deletedCreates + uncreated));
      applied := applied + {e.id};
      deletedCreates := deletedCreates + uncreated;
      stored, trace := after, Acted(trace, e);
    }

    /** Judges one event in a fixpoint pass, performing it at once when it is an
        authorised action that has not been performed yet. */
    method Judge(s: Walk<G>, e: Event, orphansKept: bool) returns (t: Walk<G>, restart: bool)
      requires Running(s) && Adjudicate(world, s, e, orphansKept).accepted <= Accepts(world, stored)
      modifies this`stored, this`applied, this`trace, this`deletedCreates, this`admittedJoins
      ensures t == Adjudicate(world, s, e, orphansKept)
      ensures if restart then Sound() else Running(t) && Moderations(stored) == Moderations(old(stored))
      ensures old(applied) <= applied <= old(applied) + {e.id}
      ensures restart || deletedCreates != old(deletedCreates) ==> applied != old(applied)
      ensures Ids(stored) <= Ids(old(stored))
    {
      restart := false;
      t := Adjudicate(world, s, e, orphansKept);
      if Authorized(world, s.groups, e) {
        assert t.accepted[|s.accepted|] == e;
        if IsAction(e) && e.id !in applied {
          restart := Act(s, t, e);
        } else {
          Admit(s, t, e);
        }
      }
    }

    /** An accepted event that is no new action: a join is admitted. */
    method Admit(s: Walk<G>, t: Walk<G>, e: Event)
      requires Running(s) && t.accepted == s.accepted + [e] && t.accepted <= Accepts(world, stored)
      requires IsAction(e) ==> e.id in applied
      modifies this`admittedJoins
      ensures Running(t)
    {
      JoinsSnoc(s.accepted, e);
      if e.kind == JOIN {
        admittedJoins := admittedJoins + {e.id};
      }
    }

    /** An accepted action that was not performed yet. */
    method Act(s: Walk<G>, ghost t: Walk<G>, e: Event) returns (restart: bool)
      requires Running(s) && t.accepted == s.accepted + [e] && t.accepted <= Accepts(world, stored)
      requires IsAction(e) && e.id !in applied && e in Accepts(world, stored)
      modifies this`stored, this`applied, this`trace, this`deletedCreates
      ensures if restart then Sound() else Running(t) && Moderations(stored) == Moderations(old(stored))
      ensures applied == old(applied) + {e.id} && Ids(stored) <= Ids(old(stored))
    {
      JoinsSnoc(s.accepted, e);
      JoinsBeforeIs(s.accepted, e, Accepts(world, stored));
      restart := Perform(e);
    }

    /** One replay of the fixpoint: walks the history, performing actions, and
        stops as soon as one of them changed what it authorises against. The
        joins it accepted are admitted in either case. */
    method Pass() returns (complete: bool)
      requires Sound()
      modifies this`stored, this`applied, this`trace, this`deletedCreates, this`admittedJoins
      ensures Sound()
      ensures old(applied) <= applied <= old(applied) + Ids(old(stored))
      ensures Ids(stored) <= Ids(old(stored))
      ensures !complete || deletedCreates != old(deletedCreates) ==> applied != old(applied)
      ensures complete ==> Moderations(stored) == Moderations(old(stored)) && trace.Passed?
    {
      ghost var history := Moderations(stored);
      ModerationsShrink(stored);
      var events := Prepared(world, Moderations(stored));
      var s := Start(world);
      for i := 0 to |events|
        invariant Running(s) && s == VisitAll(world, Start(world), events[..i])
        invariant Moderations(stored) == history && Ids(stored) <= Ids(old(stored))
        invariant old(applied) <= applied <= old(applied) + Ids(history)
        invariant deletedCreates != old(deletedCreates) ==> applied != old(applied)
      {
        NextVisit(world, history, i);
        var restart;
        s, restart := VisitOne(s, events[i], history);
        if restart {
          return false;
        }
      }
      assert events[..|events|] == events;
      RunThrough(s);
      return true;
    }

    /** A replay that ran through is recorded. */
    ghost method RunThrough(s: Walk<G>)
      requires Running(s) && s == Replay(world, Moderations(stored))
      modifies this`trace
      ensures Sound() && trace == Passed(old(trace))
    {
      trace := Passed(trace);
    }

    /** Holds an early event back or judges it, and then what it releases. */
    method VisitOne(start: Walk<G>, e: Event, ghost history: seq<Event>) returns (s: Walk<G>, restart: bool)
      requires Running(start) && Moderations(stored) == history && WalkFrom(start, history) && Comes(history, e)
      requires Visit(world, start, e).accepted <= Accepts(world, stored)
      modifies this`stored, this`applied, this`trace, this`deletedCreates, this`admittedJoins
      ensures if restart then Sound() else Running(s) && s == Visit(world, start, e) && Moderations(stored) == history
      ensures old(applied) <= applied <= old(applied) + Ids(history)
      ensures restart || deletedCreates != old(deletedCreates) ==> applied != old(applied)
      ensures Ids(stored) <= Ids(old(stored))
    {
      if Early(world, start.groups, e) {
        if e.kind == DELETE_GROUP {
          return start, false;
        }
        if HasRoom(world, start, e) {
          return Hold(world, start, e), false;
        }
      }
      VisitAdds(world, start, e);
      s, restart := Judge(start, e, true);
      if !restart && Releases(world, start.groups, e) {
        var gid := NonEmptyGroup(e).value;
        var own := Of(start.held, gid, true);
        OfFrom(start.held, gid, true, history);
        s, restart := JudgeReleased(Take(world, s, gid), own, history);
      }
    }

    /** Judges the events a create released. */
    method JudgeReleased(start: Walk<G>, released: seq<Event>, ghost history: seq<Event>)
      returns (s: Walk<G>, restart: bool)
      requires Running(start) && Moderations(stored) == history && From(released, history)
      requires AdjudicateAll(world, start, released).accepted <= Accepts(world, stored)
      modifies this`stored, this`applied, this`trace, this`deletedCreates, this`admittedJoins
      ensures
        if restart then Sound()
        else Running(s) && s == AdjudicateAll(world, start, released) && Moderations(stored) == history
      ensures old(applied) <= applied <= old(applied) + Ids(history)
      ensures restart || deletedCreates != old(deletedCreates) ==> applied != old(applied)
      ensures Ids(stored) <= Ids(old(stored))
    {
      s := start;
      for j := 0 to |released|
        invariant Running(s) && s == AdjudicateAll(world, start, released[..j])
        invariant Moderations(stored) == history && Ids(stored) <= Ids(old(stored))
        invariant old(applied) <= applied <= old(applied) + Ids(history)
        invariant deletedCreates != old(deletedCreates) ==> applied != old(applied)
      {
        s, restart := JudgeNext(s, start, released, j, history);
        if restart {
          return s, true;
        }
      }
      assert released[..|released|] == released;
      return s, false;
    }

    method JudgeNext(s: Walk<G>, ghost start: Walk<G>, released: seq<Event>, j: nat, ghost history: seq<Event>)
      returns (t: Walk<G>, restart: bool)
      requires Running(s) && Moderations(stored) == history && From(released, history) && j < |released|
      requires s == AdjudicateAll(world, start, released[..j])
      requires AdjudicateAll(world, start, released).accepted <= Replay(world, history).accepted
      modifies this`stored, this`applied, this`trace, this`deletedCreates, this`admittedJoins
      ensures if restart then Sound() else Running(t) && Moderations(stored) == history
      ensures !restart ==> t == AdjudicateAll(world, start, released[..j + 1])
      ensures old(applied) <= applied <= old(applied) + Ids(history)
      ensures restart || deletedCreates != old(deletedCreates) ==> applied != old(applied)
      ensures Ids(stored) <= Ids(old(stored))
    {
      NextJudged(world, start, released, j, history);
      t, restart := Judge(s, released[j], false);
    }

    /** Sweeps out the creates that a deleted create's ghost must keep out. */
    method RemoveRecreated() returns (removed: bool)
      requires Sound()
      modifies this`stored, this`deletedCreates, this`trace
      ensures Sound() && deletedCreates == {} && Ids(stored) <= Ids(old(stored))
      ensures !removed ==> stored == old(stored)
    {
      removed := false;
      while deletedCreates != {}
        invariant Sound()
        invariant Ids(stored) <= Ids(old(stored)) && (!removed ==> stored == old(stored))
        decreases deletedCreates
      {
        var gid :| gid in deletedCreates;
        var swept := SweepOne(gid);
        removed := removed || swept;
      }
    }

    method SweepOne(gid: string) returns (swept: bool)
      requires Sound() && gid in deletedCreates
      modifies this`stored, this`deletedCreates, this`trace
      ensures Sound() && deletedCreates == old(deletedCreates) - {gid} && Ids(stored) <= Ids(old(stored))
      ensures !swept ==> stored == old(stored)
    {
      var after;
      after, swept := Sweep(stored, gid);
      NoneRecreateSnoc(stored, after, Uncreated(trace) - deletedCreates, gid,
        Uncreated(trace) - (deletedCreates - {gid}));
      stored, trace := after, Swept(trace, gid);
      deletedCreates := deletedCreates - {gid};
    }

    /** Replays until a replay runs through. */
    method Settle()
      requires Sound() && deletedCreates == {}
      modifies this`stored, this`applied, this`trace, this`deletedCreates, this`admittedJoins
      ensures Sound() && trace.Passed?
      ensures Ids(stored) <= Ids(old(stored)) && old(applied) <= applied <= old(applied) + Ids(old(stored))
      ensures deletedCreates != {} ==> applied != old(applied)
    {
      ghost var all := old(applied) + Ids(stored);
      var complete := Pass();
      while !complete
        invariant Sound() && (complete ==> trace.Passed?)
        invariant Ids(stored) <= Ids(old(stored)) && old(applied) <= applied <= all
        invariant !complete || deletedCreates != {} ==> applied != old(applied)
        decreases all - applied, !complete
      {
        complete := Pass();
      }
    }

    /** The whole fixpoint. It terminates for every database because a restart
        has always performed a stored action for the first time; it takes lawful
        steps only, each action once; and it ends in a database whose own replay
        authorises no action that was not performed, and that holds no create of
        a group it marked. */
    method Reconcile()
      requires Sound() && deletedCreates == {}
      modifies this`stored, this`applied, this`trace, this`deletedCreates, this`admittedJoins
      ensures Sound() && Stable(world, Moderations(stored), applied) && NoneRecreate(stored, Uncreated(trace))
      ensures Ids(stored) <= Ids(old(stored)) && old(applied) <= applied <= old(applied) + Ids(old(stored))
      ensures Joins(Accepts(world, stored)) <= admittedJoins
    {
      ghost var all := old(applied) + Ids(stored);
      while true
        invariant Sound() && deletedCreates == {}
        invariant Ids(stored) <= Ids(old(stored)) && old(applied) <= applied <= all
        decreases all - applied
      {
        Settle();
        if deletedCreates == {} {
          break;
        }
        var removed := RemoveRecreated();
        if !removed {
          break;
        }
      }
    }

    /** The final replay: fails when an authorised action is left, otherwise
        drops what it refused and what it never got to judge. */
    method DropRefused() returns (stable: bool)
      requires Sound() && dropped == {}
      modifies this`stored, this`dropped
      ensures Valid() && (stable <==> Stable(world, Moderations(old(stored)), applied))
      ensures stored == if stable then Remainder(world, trace) else old(stored)
    {
      var s := Replay(world, Moderations(stored));
      stable := AllPerformed(s.accepted, applied);
      if stable {
        ghost var was := stored;
        ghost var refused := DropIds(Elements(s.refused), applied, admittedJoins, {});
        DropPage(s.refused);
        ghost var held := DropIds(Elements(s.held), applied, admittedJoins, dropped);
        DropPage(s.held);
        WithoutTwice(was, refused, held);
        assert refused + held == Dropped(world, trace);
      }
    }

    method DropPage(page: seq<Event>)
      modifies this`stored, this`dropped
      ensures
        var gone := DropIds(Elements(page), applied, admittedJoins, old(dropped));
        stored == Without(old(stored), gone) && dropped == old(dropped) + gone
    {
      ghost var was, d := stored, dropped;
      ghost var gone: set<string> := {};
      WithoutNothing(stored, gone);
      for i := 0 to |page|
        invariant gone == DropIds(Elements(page[..i]), applied, admittedJoins, d)
        invariant stored == Without(was, gone) && dropped == d + gone
      {
        var e := page[i];
        DropIdsSnoc(page, i, applied, admittedJoins, d);
        if e.kind == DELETE_EVENT || e.id in applied || e.id in admittedJoins || e.id in dropped {
          continue;
        }
        WithoutTwice(was, gone, {e.id});
        dropped := dropped + {e.id};
        stored := Without(stored, {e.id});
        gone := gone + {e.id};
      }
      assert page[..|page|] == page;
    }

    /** The migration's moderation step. The final replay finds nothing left to
        do, no create of a marked group is left, and what is dropped is exactly
        what the trace's remainder leaves out. */
    method ApplyGroupSideEffects() returns (stable: bool)
      requires Sound() && applied == {} && deletedCreates == {} && dropped == {}
      modifies this
      ensures Valid() && stable && Stable(world, Moderations(Now(trace)), applied)
      ensures NoneRecreate(Now(trace), Uncreated(trace))
      ensures stored == Remainder(world, trace)
      ensures forall e :: e in initial ==> (e in Now(trace) <==> !Went(trace, e))
      ensures forall e :: e in Accepts(world, Now(trace)) && (e.kind == 9005 || e.kind == 9008) ==> e.id in applied
      ensures forall e, gid ::
        e in Now(trace) && gid in Uncreated(trace) ==> !(e.kind == 9007 && HasTag(e.tags, "h", gid))
    {
      Reconcile();
      stable := DropRefused();
      forall e | e in initial ensures e in Now(trace) <==> !Went(trace, e) {
        GoneExactly(world, trace, e);
      }
      forall e | e in Accepts(world, Now(trace)) && (e.kind == 9005 || e.kind == 9008) ensures e.id in applied {
        var i :| 0 <= i < |Accepts(world, Now(trace))| && Accepts(world, Now(trace))[i] == e;
      }
      forall e, gid | e in Now(trace) && gid in Uncreated(trace) ensures !(e.kind == 9007 && HasTag(e.tags, "h", gid)) {
        assert !RecreateOf(e, gid);
      }
    }
  }

  lemma FewerRecreate(before: seq<Event>, after: seq<Event>, gids: set<string>, fewer: set<string>)
    requires NoneRecreate(before, gids) && fewer <= gids && forall e :: e in after ==> e in before
    ensures NoneRecreate(after, fewer)
  {
  }
}
