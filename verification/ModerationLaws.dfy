/** What a replay of stored moderation does, said of tags and kinds alone: which
    events it judges, who is entitled to what, and what each visit does. */
module ModerationLaws {
  import opened Text
  import opened Events
  import opened EventLists
  import opened Moderation
  import opened Replays

  // ----- tags -----

  /** The group of an event is the value of its first `h` tag. */
  ghost predicate OfGroup(e: Event, group: string) { FirstValue(e.tags, "h", group) }

  lemma GroupExactly(e: Event)
    ensures forall group :: GroupId(e) == Some(group) <==> OfGroup(e, group)
    ensures GroupId(e).None? <==> forall group :: !OfGroup(e, group)
  {
    FirstTagExactly(e.tags, "h");
    if GroupId(e).Some? {
      assert OfGroup(e, GroupId(e).value);
    }
  }

  // ----- what is judged -----

  /** A kind:9001 of the join's second and group that names its author; a join
      without a group counts as one of the empty group. */
  ghost predicate TakesOut(removal: Event, join: Event) {
    && removal.kind == 9001 && removal.createdAt == join.createdAt && HasTag(removal.tags, "p", join.pubkey)
    && exists group :: OfGroup(removal, group) && (OfGroup(join, group) || (group == "" && !HasGroup(join)))
  }

  ghost predicate HasGroup(e: Event) { exists group :: OfGroup(e, group) }

  lemma TakesOutExactly(removal: Event, join: Event)
    ensures Removes(removal, join) <==> TakesOut(removal, join)
  {
    GroupExactly(removal);
    GroupExactly(join);
  }

  /** A tag naming a key that vanished. */
  predicate NamesVanished<G>(w: World<G>, tag: seq<string>) {
    |tag| >= 2 && tag[0] == "p" && tag[1] in w.vanished
  }

  lemma {:induction false} StrippedTags<G>(w: World<G>, tags: seq<seq<string>>, tag: seq<string>)
    ensures tag in WithoutVanished(w, tags) <==> tag in tags && !NamesVanished(w, tag)
  {
    if tags != [] {
      StrippedTags(w, tags[1..], tag);
      assert tags == [tags[0]] + tags[1..];
    }
  }

  /** At startup a removal counts only where it or the join has no arrival number. */
  ghost predicate OutInItsSecond<G>(w: World<G>, history: seq<Event>, join: Event) {
    exists i ::
      && 0 <= i < |history| && TakesOut(history[i], join)
      && (w.startup ==> join.id !in w.arrived || history[i].id !in w.arrived)
  }

  /** An event of the history is passed over: a join of a vanished author or one
      that was taken out in its second, a grant that names vanished keys only, and
      at startup whatever is dated more than ten minutes ahead. */
  ghost predicate PassedOver<G>(w: World<G>, history: seq<Event>, e: Event) {
    || (e.kind == 9021 && (e.pubkey in w.vanished || OutInItsSecond(w, history, e)))
    || (e.kind == 9000 && forall i :: 0 <= i < |e.tags| ==> NamesVanished(w, e.tags[i]))
    || (w.startup && e.createdAt > w.now + 600)
  }

  lemma PassedOverExactly<G>(w: World<G>, history: seq<Event>, e: Event)
    ensures Skips(w, history, e) <==> PassedOver(w, history, e)
  {
    forall i | 0 <= i < |history| ensures Removes(history[i], e) <==> TakesOut(history[i], e) {
      TakesOutExactly(history[i], e);
    }
    NothingLeft(w, e.tags);
  }

  lemma NothingLeft<G>(w: World<G>, tags: seq<seq<string>>)
    ensures WithoutVanished(w, tags) == [] <==> forall i :: 0 <= i < |tags| ==> NamesVanished(w, tags[i])
  {
    var left := WithoutVanished(w, tags);
    forall tag ensures tag in left <==> tag in tags && !NamesVanished(w, tag) {
      StrippedTags(w, tags, tag);
    }
    if left != [] {
      assert left[0] in left;
    }
  }

  /** A replay judges exactly the events of its history that are not passed over,
      a grant without the tags that name vanished keys and any other as it is. */
  lemma JudgedExactly<G>(w: World<G>, history: seq<Event>, e: Event)
    requires UniqueIds(history) && e in history
    ensures e.id in Ids(Prepared(w, history)) <==> !PassedOver(w, history, e)
    ensures !PassedOver(w, history, e) ==>
      exists x :: && x in Prepared(w, history) && x == e.(tags := x.tags) && (e.kind != 9000 ==> x == e)
                  && forall tag :: tag in x.tags <==> tag in e.tags && !(e.kind == 9000 && NamesVanished(w, tag))
  {
    PassedOverExactly(w, history, e);
    PreparedHolds(w, history, history, e);
    if !PassedOver(w, history, e) {
      var x := Stripped(w, e);
      forall tag ensures tag in x.tags <==> tag in e.tags && !(e.kind == 9000 && NamesVanished(w, tag)) {
        StrippedTags(w, e.tags, tag);
      }
    }
  }

  // ----- who is entitled -----

  /** The migration accepts an event that is not dated more than ten minutes ahead
      and has a group; a join if its group exists and is open, or it brings a code;
      moderation by the relay's own key, by an admin of the group, or, where there
      is no group yet, a create. */
  ghost predicate Entitled<G>(w: World<G>, g: G, e: Event) {
    && e.createdAt <= w.now + 600
    && (9000 <= e.kind <= 9022 ==> HasGroup(e))
    && (e.kind == 9021 ==> MayJoin(w, g, e))
    && (9000 <= e.kind <= 9020 ==> ByRelay(w, e) || ByAdmin(w, g, e) || (e.kind == 9007 && !OfKnown(w, g, e)))
  }

  ghost predicate MayJoin<G>(w: World<G>, g: G, e: Event) {
    exists group :: OfGroup(e, group) && w.known(g, group) && (!w.closed(g, group) || BringsCode(e))
  }

  ghost predicate BringsCode(e: Event) { exists code :: FirstValue(e.tags, "code", code) && code != "" }

  predicate ByRelay<G>(w: World<G>, e: Event) {
    w.relayPubkey.Some? && EqIgnoreCase(w.relayPubkey.value, e.pubkey)
  }

  ghost predicate OfKnown<G>(w: World<G>, g: G, e: Event) { exists group :: OfGroup(e, group) && w.known(g, group) }

  ghost predicate ByAdmin<G>(w: World<G>, g: G, e: Event) {
    exists group :: OfGroup(e, group) && w.known(g, group) && w.isAdmin(g, group, e.pubkey)
  }

  lemma CodeExactly(e: Event)
    ensures BringsCode(e) <==> FirstTagValue(e.tags, "code").Some? && FirstTagValue(e.tags, "code").value != ""
  {
    FirstTagExactly(e.tags, "code");
  }

  /** The migration's gate is exactly this; the rebuild at startup has none. */
  lemma EntitledExactly<G>(w: World<G>, g: G, e: Event)
    ensures Authorized(w, g, e) <==> w.startup || Entitled(w, g, e)
  {
    GroupExactly(e);
    CodeExactly(e);
  }

  // ----- the groups come from what was accepted -----

  function Derived<G>(w: World<G>, accepted: seq<Event>): G {
    if accepted == [] then w.empty
    else w.apply(Derived(w, accepted[..|accepted| - 1]), accepted[|accepted| - 1])
  }

  lemma DerivedSnoc<G>(w: World<G>, accepted: seq<Event>, e: Event)
    ensures Derived(w, accepted + [e]) == w.apply(Derived(w, accepted), e)
  {
    assert (accepted + [e])[..|accepted|] == accepted;
  }

  /** Whether the event accepted at `i` was entitled against the groups derived
      from those before it. */
  ghost predicate RightAt<G>(w: World<G>, accepted: seq<Event>, i: nat)
    requires i < |accepted|
  {
    w.startup || Entitled(w, Derived(w, accepted[..i]), accepted[i])
  }

  ghost predicate WrongAt<G>(w: World<G>, accepted: seq<Event>, e: Event, n: nat)
    requires n <= |accepted|
  {
    !w.startup && !Entitled(w, Derived(w, accepted[..n]), e)
  }

  /** The groups are those derived from the accepted events, every accepted event
      was entitled when it was accepted, and every refused one was not at some
      moment. */
  ghost predicate ByRight<G>(w: World<G>, s: Walk<G>) {
    && s.groups == Derived(w, s.accepted)
    && (forall i :: 0 <= i < |s.accepted| ==> RightAt(w, s.accepted, i))
    && forall e :: e in s.refused ==> exists n :: 0 <= n <= |s.accepted| && WrongAt(w, s.accepted, e, n)
  }

  lemma RightLater<G>(w: World<G>, accepted: seq<Event>, e: Event)
    ensures forall i :: 0 <= i < |accepted| ==> (RightAt(w, accepted + [e], i) <==> RightAt(w, accepted, i))
    ensures forall x, n: nat :: n <= |accepted| ==> (WrongAt(w, accepted + [e], x, n) <==> WrongAt(w, accepted, x, n))
    ensures RightAt(w, accepted + [e], |accepted|) <==> w.startup || Entitled(w, Derived(w, accepted), e)
  {
    var all := accepted + [e];
    assert forall i :: 0 <= i <= |accepted| ==> all[..i] == accepted[..i];
    assert accepted[..|accepted|] == accepted;
  }

  lemma AdjudicateByRight<G>(w: World<G>, s: Walk<G>, e: Event, orphansKept: bool)
    requires ByRight(w, s)
    ensures ByRight(w, Adjudicate(w, s, e, orphansKept))
  {
    EntitledExactly(w, s.groups, e);
    var t := Adjudicate(w, s, e, orphansKept);
    if Authorized(w, s.groups, e) {
      DerivedSnoc(w, s.accepted, e);
      RightLater(w, s.accepted, e);
      forall x | x in t.refused ensures exists n :: 0 <= n <= |t.accepted| && WrongAt(w, t.accepted, x, n) {
        var n :| 0 <= n <= |s.accepted| && WrongAt(w, s.accepted, x, n);
        assert WrongAt(w, t.accepted, x, n);
      }
    } else if t != s {
      assert s.accepted[..|s.accepted|] == s.accepted;
      assert WrongAt(w, t.accepted, e, |s.accepted|);
    }
  }

  lemma {:induction false} AdjudicateAllByRight<G>(w: World<G>, s: Walk<G>, events: seq<Event>)
    requires ByRight(w, s)
    ensures ByRight(w, AdjudicateAll(w, s, events))
    decreases |events|
  {
    if events != [] {
      AdjudicateAllByRight(w, s, events[..|events| - 1]);
      AdjudicateByRight(w, AdjudicateAll(w, s, events[..|events| - 1]), events[|events| - 1], false);
    }
  }

  lemma {:induction false} VisitAllByRight<G>(w: World<G>, events: seq<Event>)
    ensures ByRight(w, VisitAll(w, Start(w), events))
    decreases |events|
  {
    if events != [] {
      var e := events[|events| - 1];
      VisitAllByRight(w, events[..|events| - 1]);
      var s := VisitAll(w, Start(w), events[..|events| - 1]);
      AdjudicateByRight(w, s, e, true);
      if Releases(w, s.groups, e) {
        var gid := NonEmptyGroup(e).value;
        AdjudicateAllByRight(w, Take(w, Adjudicate(w, s, e, true), gid), Of(s.held, gid, true));
      }
    }
  }

  /** In a replay of any history the groups are derived from the accepted events,
      in order; the migration accepted each of them by right, against the groups
      derived from those before it, and refused nothing that was entitled
      throughout. */
  lemma AcceptedByRight<G>(w: World<G>, history: seq<Event>)
    ensures ByRight(w, Replay(w, history))
  {
    VisitAllByRight(w, Prepared(w, history));
  }

  // ----- what a visit does -----

  /** An event waits for its group: it is no create, and its group neither exists
      nor is known to have gone. */
  ghost predicate Awaits<G>(w: World<G>, g: G, e: Event) {
    e.kind != 9007 && exists group :: && OfGroup(e, group) && group != "" && !w.known(g, group)
                                      && !w.ghosted(g, group) && !w.deleted(g, group)
  }

  lemma AwaitsExactly<G>(w: World<G>, g: G, e: Event)
    ensures Early(w, g, e) <==> Awaits(w, g, e)
  {
    GroupExactly(e);
  }

  /** An accepted create of a group releases what waits for it. */
  ghost predicate Founds<G>(w: World<G>, g: G, e: Event) {
    e.kind == 9007 && (w.startup || Entitled(w, g, e)) && exists group :: OfGroup(e, group) && group != ""
  }

  lemma FoundsExactly<G>(w: World<G>, g: G, e: Event)
    ensures Releases(w, g, e) <==> Founds(w, g, e)
  {
    GroupExactly(e);
    EntitledExactly(w, g, e);
  }

  /** A waiting event is held while there is room for fifty thousand of them and
      64 MiB, and a waiting deletion of a group is passed over. */
  lemma HeldExactly<G>(w: World<G>, s: Walk<G>, e: Event)
    requires Awaits(w, s.groups, e)
    ensures
      var t := Visit(w, s, e);
      && (e.kind == 9008 ==> t == s)
      && (e.kind != 9008 && s.count < 50_000 && s.bytes + w.jsonBytes(e) <= 67_108_864 ==>
            && t.held == s.held + [e] && t.count == s.count + 1 && t.bytes == s.bytes + w.jsonBytes(e)
            && t.groups == s.groups && t.accepted == s.accepted && t.refused == s.refused)
  {
    AwaitsExactly(w, s.groups, e);
  }

  /** Any other event is judged: accepted and applied by right, refused otherwise,
      but a join to a group that does not exist is left alone. */
  lemma VisitExactly<G>(w: World<G>, s: Walk<G>, e: Event)
    requires !Awaits(w, s.groups, e)
      || (e.kind != 9008 && (s.count >= 50_000 || s.bytes + w.jsonBytes(e) > 67_108_864))
    requires !Founds(w, s.groups, e)
    ensures
      var t, entitled := Visit(w, s, e), w.startup || Entitled(w, s.groups, e);
      && (entitled ==> t == s.(groups := w.apply(s.groups, e), accepted := s.accepted + [e]))
      && (!entitled && e.kind == 9021 && HasGroup(e) && !OfKnown(w, s.groups, e) ==> t == s)
      && (!entitled && !(e.kind == 9021 && HasGroup(e) && !OfKnown(w, s.groups, e)) ==>
            t == s.(refused := s.refused + [e]))
  {
    AwaitsExactly(w, s.groups, e);
    FoundsExactly(w, s.groups, e);
    EntitledExactly(w, s.groups, e);
    GroupExactly(e);
  }

  lemma {:induction false} OfExactly(events: seq<Event>, group: string, own: bool, x: Event)
    ensures x in Of(events, group, own) <==> x in events && ((OfGroup(x, group) && group != "") <==> own)
    decreases |events|
  {
    if events != [] {
      var prefix, last := events[..|events| - 1], events[|events| - 1];
      assert events == prefix + [last];
      OfExactly(prefix, group, own, x);
      GroupExactly(last);
    }
  }

  lemma {:induction false} AllDecided<G>(w: World<G>, s: Walk<G>, events: seq<Event>, x: Event)
    requires x in events
    ensures x in AdjudicateAll(w, s, events).accepted || x in AdjudicateAll(w, s, events).refused
    decreases |events|
  {
    var prefix, last := events[..|events| - 1], events[|events| - 1];
    assert events == prefix + [last];
    var t := AdjudicateAll(w, s, prefix);
    if x == last {
      assert (t.accepted + [x])[|t.accepted|] == x && (t.refused + [x])[|t.refused|] == x;
    } else {
      AllDecided(w, s, prefix, x);
    }
  }

  lemma {:induction false} DecidedStays<G>(w: World<G>, s: Walk<G>, events: seq<Event>)
    ensures s.accepted <= AdjudicateAll(w, s, events).accepted && s.refused <= AdjudicateAll(w, s, events).refused
    ensures AdjudicateAll(w, s, events).held == s.held
    decreases |events|
  {
    if events != [] {
      DecidedStays(w, s, events[..|events| - 1]);
    }
  }

  /** A create that founds its group is accepted, what waits for the group is then
      accepted or refused, and what waits for others goes on waiting. */
  lemma ReleasedExactly<G>(w: World<G>, s: Walk<G>, e: Event, group: string, x: Event)
    requires Founds(w, s.groups, e) && OfGroup(e, group)
    ensures
      var t := Visit(w, s, e);
      && s.accepted + [e] <= t.accepted && s.refused <= t.refused
      && (x in t.held <==> x in s.held && !OfGroup(x, group))
      && (x in s.held && OfGroup(x, group) ==> x in t.accepted || x in t.refused)
  {
    FoundsExactly(w, s.groups, e);
    GroupExactly(e);
    assert GroupId(e) == Some(group) && NonEmptyGroup(e) == Some(group);
    var start, own := Take(w, Adjudicate(w, s, e, true), group), Of(s.held, group, true);
    DecidedStays(w, start, own);
    OfExactly(s.held, group, true, x);
    OfExactly(s.held, group, false, x);
    if x in own {
      AllDecided(w, start, own, x);
    }
  }
}
