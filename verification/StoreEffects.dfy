/** What each removal does, exactly: which stored events go, and which
    publications are refused from then on. */
module StoreEffects {
  import opened Text
  import opened Events
  import opened Store
  import opened StoreRuns
  import opened StoreConvergence

  // ----- NIP-09 requests -----

  /** A request names an event by id: its author's own, stored or not, unless it
      is itself a stored deletion request. */
  ghost predicate Named(s: State, requester: string, targets: seq<string>, e: Event) {
    e.id in targets && EqIgnoreCase(e.pubkey, requester) && !(e.id in s.stored && e.kind == DELETION_KIND)
  }

  lemma TargetExact(s: State, requester: string, id: string, e: Event)
    requires e.id in s.stored ==> s.stored[e.id] == e
    ensures
      var t := TargetStep(s, requester, id).0;
      && (e.id in t.stored <==> e.id in s.stored && !Named(s, requester, [id], e))
      && (DeletedBlocks(t, e) <==> DeletedBlocks(s, e) || Named(s, requester, [id], e))
      && t == s.(stored := t.stored, slots := t.slots, deletedIds := t.deletedIds, absentBlocks := t.absentBlocks)
  {
  }

  /** The `e` targets of a request, exactly. */
  lemma {:induction false} TargetsExact(u: string -> Event, s: State, requester: string, targets: seq<string>, e: Event)
    requires Inv(s) && Known(u, s) && u(e.id) == e
    ensures
      var t := TargetsStep(s, requester, targets).0;
      && (e.id in t.stored <==> e.id in s.stored && !Named(s, requester, targets, e))
      && (DeletedBlocks(t, e) <==> DeletedBlocks(s, e) || Named(s, requester, targets, e))
      && t == s.(stored := t.stored, slots := t.slots, deletedIds := t.deletedIds, absentBlocks := t.absentBlocks)
    decreases |targets|
  {
    if targets != [] {
      var prefix, id := targets[..|targets| - 1], targets[|targets| - 1];
      TargetsExact(u, s, requester, prefix, e);
      TargetsKeep(u, s, requester, prefix);
      TargetExact(TargetsStep(s, requester, prefix).0, requester, id, e);
      assert targets == prefix + [id];
    }
  }

  lemma AddressesExact(u: string -> Event, s: State, requester: string, addresses: seq<Address>, created: nat, e: Event)
    requires Inv(s) && Known(u, s) && u(e.id) == e
    ensures
      var t := AddressesStep(s, requester, addresses, created).0;
      && (e.id in t.stored <==> e.id in s.stored && !Cuts(requester, addresses, created, e))
      && (Refuses(t, e) <==> Refuses(s, e) || Cuts(requester, addresses, created, e))
  {
    AddressesCut(u, s, requester, addresses, created);
    var t := AddressesStep(s, requester, addresses, created).0;
    assert forall i :: 0 <= i < |e.tags| ==> TagPurged(s, e, e.tags[i]) == TagPurged(t, e, e.tags[i]);
  }

  /** A deletion request removes exactly the events it names by id and the
      versions it reaches by address, and refuses exactly those from then on,
      whether or not they were stored. All of them are its author's own, and none
      is a stored deletion request. */
  lemma DeletionExact(
    u: string -> Event, s: State, requester: string, targets: seq<string>, addresses: seq<Address>, created: nat,
    e: Event)
    requires Inv(s) && Known(u, s) && u(e.id) == e
    ensures
      var t := DeleteStep(s, requester, targets, addresses, created).0;
      var reached := Named(s, requester, targets, e) || Cuts(requester, addresses, created, e);
      && (e.id in t.stored <==> e.id in s.stored && !reached)
      && (Refuses(t, e) <==> Refuses(s, e) || reached)
      && (reached ==> EqIgnoreCase(e.pubkey, requester) && !(e.id in s.stored && e.kind == DELETION_KIND))
  {
    TargetsExact(u, s, requester, targets, e);
    TargetsKeep(u, s, requester, targets);
    var t := TargetsStep(s, requester, targets).0;
    AddressesExact(u, t, requester, addresses, created, e);
    assert forall i :: 0 <= i < |e.tags| ==> TagPurged(s, e, e.tags[i]) == TagPurged(t, e, e.tags[i]);
  }

  /** What a request reached is never stored again, whatever happens later. */
  lemma DeletionIsFinal(
    u: string -> Event, s: State, requester: string, targets: seq<string>, addresses: seq<Address>, created: nat,
                        ops: seq<Op>, e: Event)
    requires Inv(s) && Known(u, s) && u(e.id) == e && AllAuthentic(u, ops)
    requires Named(s, requester, targets, e) || Cuts(requester, addresses, created, e)
    ensures
      var t := Step(u, s, DeleteRequest(requester, targets, addresses, created)).state;
      e.id !in Run(u, t, ops).state.stored
  {
    DeletionExact(u, s, requester, targets, addresses, created, e);
    NoResurrection(u, Step(u, s, DeleteRequest(requester, targets, addresses, created)).state, ops, e);
  }

  // ----- NIP-29 deletions -----

  /** A kind:9005 reaches the named stored events of its own group, but neither
      relay metadata nor deletion requests. */
  ghost predicate GroupNamed(s: State, targets: seq<string>, group: string, e: Event) {
    && e.id in targets && e.id in s.stored
    && GroupIdAny(e) == Some(group) && e.kind != DELETION_KIND && !IsMetaKind(e.kind)
  }

  lemma GroupTargetExact(s: State, id: string, group: string, e: Event)
    requires e.id in s.stored ==> s.stored[e.id] == e
    ensures
      var t := GroupTargetStep(s, id, group).0;
      && (e.id in t.stored <==> e.id in s.stored && !GroupNamed(s, [id], group, e))
      && (e.id in t.deletedIds <==> e.id in s.deletedIds || GroupNamed(s, [id], group, e))
      && t == s.(stored := t.stored, slots := t.slots, deletedIds := t.deletedIds)
  {
  }

  /** A kind:9005 removes exactly the events it reaches, and bars exactly their
      ids from then on. */
  lemma {:induction false} GroupDeletionExact(
    u: string -> Event, s: State, targets: seq<string>, group: string, e: Event)
    requires Inv(s) && Known(u, s) && u(e.id) == e
    ensures
      var t := GroupDeleteStep(s, targets, group).0;
      && (e.id in t.stored <==> e.id in s.stored && !GroupNamed(s, targets, group, e))
      && (e.id in t.deletedIds <==> e.id in s.deletedIds || GroupNamed(s, targets, group, e))
      && t == s.(stored := t.stored, slots := t.slots, deletedIds := t.deletedIds)
    decreases |targets|
  {
    if targets != [] {
      var prefix, id := targets[..|targets| - 1], targets[|targets| - 1];
      GroupDeletionExact(u, s, prefix, group, e);
      GroupDeleteKeeps(u, s, prefix, group);
      GroupTargetExact(GroupDeleteStep(s, prefix, group).0, id, group, e);
      assert targets == prefix + [id];
    }
  }

  /** The part of a purged group's history that may not come back: everything up
      to the cut, but creates only before the purge. */
  predicate UpToMark(mark: PurgeMark, e: Event) {
    if e.kind == CREATE_GROUP then e.createdAt < mark.purgeNow else e.createdAt <= mark.cut
  }

  lemma PurgeTags(s: State, group: string, mark: PurgeMark, e: Event)
    requires group in s.purgedGroups ==> NotBefore(s.purgedGroups[group], mark)
    ensures PurgedBlocks(WithPurge(s, group, mark), e) <==>
      PurgedBlocks(s, e) || (InGroup(e, group) && UpToMark(mark, e))
  {
    var t := WithPurge(s, group, mark);
    forall i | 0 <= i < |e.tags|
      ensures TagPurged(t, e, e.tags[i]) <==>
        TagPurged(s, e, e.tags[i]) || (NamesGroup(e, e.tags[i], group) && UpToMark(mark, e))
    {
    }
    InGroupByTag(e, group);
    if PurgedBlocks(s, e) {
      var i :| 0 <= i < |e.tags| && TagPurged(s, e, e.tags[i]);
      assert TagPurged(t, e, e.tags[i]);
    }
  }

  predicate NamesGroup(e: Event, tag: seq<string>, group: string) {
    IsTag(tag, "h", group) || (IsMetaKind(e.kind) && IsTag(tag, "d", group))
  }

  lemma InGroupByTag(e: Event, group: string)
    ensures InGroup(e, group) <==> exists i :: 0 <= i < |e.tags| && NamesGroup(e, e.tags[i], group)
  {
    if HasTag(e.tags, "h", group) {
      var i :| 0 <= i < |e.tags| && IsTag(e.tags[i], "h", group);
      assert NamesGroup(e, e.tags[i], group);
    } else if IsMetaKind(e.kind) && HasTag(e.tags, "d", group) {
      var i :| 0 <= i < |e.tags| && IsTag(e.tags[i], "d", group);
      assert NamesGroup(e, e.tags[i], group);
    }
  }

  /** A kind:9008 removes exactly its group's events, and refuses exactly the
      history up to its mark from then on. */
  lemma PurgeExact(s: State, group: string, now: nat, e: Event)
    requires Inv(s) && (e.id in s.stored ==> s.stored[e.id] == e)
    ensures
      var t := PurgeGroupStep(s, group, now).0;
      && group in t.purgedGroups
      && (e.id in t.stored <==> e.id in s.stored && !InGroup(e, group))
      && (Refuses(t, e) <==> Refuses(s, e) || (InGroup(e, group) && UpToMark(t.purgedGroups[group], e)))
  {
    var t := PurgeGroupStep(s, group, now).0;
    PurgeTags(s, group, t.purgedGroups[group], e);
    var w := WithPurge(s, group, t.purgedGroups[group]);
    assert t == w.(stored := t.stored, slots := t.slots);
    assert forall i :: 0 <= i < |e.tags| ==> TagPurged(w, e, e.tags[i]) == TagPurged(t, e, e.tags[i]);
  }

  lemma MarkCoversHistory(s: State, group: string, now: nat, e: Event)
    requires e.id in s.stored && s.stored[e.id] == e && InGroup(e, group)
    requires e.kind == CREATE_GROUP ==> e.createdAt < now
    ensures UpToMark(PurgeGroupStep(s, group, now).0.purgedGroups[group], e)
  {
    assert e.id in GroupHistory(s, group);
  }

  /** An operation after which an event is neither stored nor admitted. */
  ghost predicate Bars(s: State, op: Op, e: Event)
    requires Inv(s)
  {
    Refuses(Raw(s, op).state, e) && e.id !in Raw(s, op).state.stored
  }

  lemma BarredForGood(u: string -> Event, s: State, op: Op, ops: seq<Op>, e: Event)
    requires Inv(s) && Known(u, s) && Authentic(u, op) && u(e.id) == e && AllAuthentic(u, ops)
    requires Bars(s, op, e)
    ensures e.id !in Run(u, Step(u, s, op).state, ops).state.stored
  {
    NoResurrection(u, Step(u, s, op).state, ops, e);
  }

  lemma PurgeRefuses(s: State, group: string, now: nat, e: Event)
    requires Inv(s) && e.id in s.stored && s.stored[e.id] == e && InGroup(e, group)
    requires e.kind == CREATE_GROUP ==> e.createdAt < now
    ensures Bars(s, PurgeGroup(group, now), e)
  {
    PurgeExact(s, group, now, e);
    MarkCoversHistory(s, group, now, e);
  }

  /** Purged events never come back, whatever happens later; a create of the
      purge's own second or later may. */
  lemma PurgeIsFinal(u: string -> Event, s: State, group: string, now: nat, ops: seq<Op>, e: Event)
    requires Inv(s) && Known(u, s) && u(e.id) == e && AllAuthentic(u, ops)
    requires e.id in s.stored && InGroup(e, group) && (e.kind == CREATE_GROUP ==> e.createdAt < now)
    ensures e.id !in Run(u, Step(u, s, PurgeGroup(group, now)).state, ops).state.stored
  {
    PurgeRefuses(s, group, now, e);
    BarredForGood(u, s, PurgeGroup(group, now), ops, e);
  }

  // ----- NIP-62 -----

  /** A request to vanish that moves the mark removes exactly the author's events
      up to the mark, in whatever case they spell the key, and refuses exactly
      this spelling of the key from then on. */
  lemma VanishExact(s: State, pubkey: string, until: nat, e: Event)
    requires Inv(s) && (e.id in s.stored ==> s.stored[e.id] == e)
    requires pubkey in s.vanished ==> s.vanished[pubkey] < until
    ensures
      var t := VanishStep(s, pubkey, until).0;
      && (e.id in t.stored <==> e.id in s.stored && !(EqIgnoreCase(e.pubkey, pubkey) && e.createdAt <= until))
      && (Refuses(t, e) <==> Refuses(s, e) || e.pubkey == pubkey)
  {
    var t := VanishStep(s, pubkey, until).0;
    assert forall i :: 0 <= i < |e.tags| ==> TagPurged(s, e, e.tags[i]) == TagPurged(t, e, e.tags[i]);
  }

  /** So an event under another spelling of the key is removed, and can be
      published again. */
  lemma OtherSpellingReturns()
    ensures
      var e := Event("1", "AB", 5, 1, [], "", "");
      var before := PutStep(EMPTY, e, 0).0;
      var vanished := VanishStep(before, "ab", 10).0;
      Inv(vanished) && "1" in before.stored && "1" !in vanished.stored && "1" in PutStep(vanished, e, 0).0.stored
  {
    var e := Event("1", "AB", 5, 1, [], "", "");
    var before := PutStep(EMPTY, e, 0).0;
    assert before == EMPTY.(stored := map["1" := e]);
    assert Lower("AB") == "ab" && Lower("ab") == "ab";
    var vanished := VanishStep(before, "ab", 10).0;
    assert AuthoredUpTo(before, "ab", 10) == {"1"};
    assert vanished == EMPTY.(vanished := map["ab" := 10]);
  }
}
