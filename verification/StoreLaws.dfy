/** What the store does, said of events and markers alone: which events are
    versions of one another, which are refused, and what a publication and each
    removal leave. */
module StoreLaws {
  import opened Text
  import opened Events
  import opened Store
  import opened StoreRuns
  import opened StoreConvergence
  import opened StoreEffects

  // ----- versions -----

  /** The first `d` value, an absent one counting as empty. */
  ghost predicate HasD(e: Event, d: string) {
    if exists v :: FirstValue(e.tags, "d", v) then FirstValue(e.tags, "d", d) else d == ""
  }

  predicate OneVersionKind(kind: nat) { kind == 0 || kind == 3 || 10_000 <= kind <= 19_999 }

  /** Two events of one author that the store keeps at most one of: of one
      replaceable kind, or of one addressable kind and the same `d`. */
  ghost predicate SameVersion(x: Event, e: Event) {
    && x.kind == e.kind && x.pubkey == e.pubkey
    && (OneVersionKind(e.kind) || (30_000 <= e.kind <= 39_999 && exists d :: HasD(x, d) && HasD(e, d)))
  }

  lemma DExactly(e: Event, d: string)
    ensures HasD(e, d) <==> d == (if FirstTagValue(e.tags, "d").Some? then FirstTagValue(e.tags, "d").value else "")
  {
    FirstTagExactly(e.tags, "d");
    if FirstTagValue(e.tags, "d").Some? {
      assert FirstValue(e.tags, "d", FirstTagValue(e.tags, "d").value);
    } else if v :| FirstValue(e.tags, "d", v) {
      assert false;
    }
  }

  /** Events share a slot if and only if they are versions of one another. */
  lemma SlotsAreVersions(x: Event, e: Event)
    ensures SlotOf(x).Some? && SlotOf(x) == SlotOf(e) <==> SameVersion(x, e)
  {
    var d := if FirstTagValue(x.tags, "d").Some? then FirstTagValue(x.tags, "d").value else "";
    DExactly(x, d);
    DExactly(e, d);
    if d' :| HasD(x, d') && HasD(e, d') {
      DExactly(x, d');
    }
  }

  lemma SlottedIsAVersion(e: Event)
    ensures SlotOf(e).Some? <==> SameVersion(e, e)
  {
    SlotsAreVersions(e, e);
  }

  // ----- refusals -----

  /** A tag ties an event to a group: `h`, or `d` for relay metadata. */
  predicate TiesTo(e: Event, tag: seq<string>, group: string) {
    |tag| >= 2 && tag[1] == group && (tag[0] == "h" || (39_000 <= e.kind <= 39_005 && tag[0] == "d"))
  }

  /** Of a purged group everything up to the cut is refused, a create only when it
      is older than the purge. */
  ghost predicate RefusedByPurge(s: State, e: Event) {
    exists i, group {:trigger TiesTo(e, e.tags[i], group)} ::
      && 0 <= i < |e.tags| && TiesTo(e, e.tags[i], group) && group in s.purgedGroups
      && if e.kind == 9007 then e.createdAt < s.purgedGroups[group].purgeNow
         else e.createdAt <= s.purgedGroups[group].cut
  }

  /** A deleted address: its kind and author, and its `d` for an addressable kind,
      up to a time. */
  ghost predicate RefusedByAddress(s: State, e: Event) {
    exists slot :: slot in s.addressTombstones && Addresses(slot, e) && e.createdAt <= s.addressTombstones[slot]
  }

  ghost predicate Addresses(slot: Slot, e: Event) {
    && slot.kind == e.kind && slot.pubkey == e.pubkey
    && if 30_000 <= e.kind <= 39_999 then HasD(e, slot.d) else OneVersionKind(e.kind) && slot.d == ""
  }

  /** What the markers refuse, whatever the clock says. */
  ghost predicate Forbidden(s: State, e: Event) {
    || e.pubkey in s.vanished || e.id in s.deletedIds || (e.id, Lower(e.pubkey)) in s.absentBlocks
    || 20_000 <= e.kind <= 29_999 || RefusedByPurge(s, e) || RefusedByAddress(s, e)
  }

  lemma AddressesExactly(slot: Slot, e: Event)
    ensures Addresses(slot, e) <==> SlotOf(e) == Some(slot)
  {
    DExactly(e, slot.d);
  }

  lemma PurgeRefusesExactly(s: State, e: Event)
    ensures PurgedBlocks(s, e) <==> RefusedByPurge(s, e)
  {
    if i :| 0 <= i < |e.tags| && TagPurged(s, e, e.tags[i]) {
      assert TiesTo(e, e.tags[i], e.tags[i][1]);
    }
    if RefusedByPurge(s, e) {
      var i, group :| 0 <= i < |e.tags| && TiesTo(e, e.tags[i], group) && group in s.purgedGroups
        && if e.kind == 9007 then e.createdAt < s.purgedGroups[group].purgeNow
           else e.createdAt <= s.purgedGroups[group].cut;
      assert TagPurged(s, e, e.tags[i]);
    }
  }

  lemma AddressRefusesExactly(s: State, e: Event)
    ensures SlotOf(e).Some? && AddressBlocked(s, SlotOf(e).value, e.createdAt) <==> RefusedByAddress(s, e)
  {
    if SlotOf(e).Some? {
      AddressesExactly(SlotOf(e).value, e);
    }
    if slot :| slot in s.addressTombstones && Addresses(slot, e) && e.createdAt <= s.addressTombstones[slot] {
      AddressesExactly(slot, e);
    }
  }

  /** The markers refuse exactly what they say. */
  lemma ForbiddenExactly(s: State, e: Event)
    ensures Refuses(s, e) <==> Forbidden(s, e)
  {
    PurgeRefusesExactly(s, e);
    AddressRefusesExactly(s, e);
  }

  // ----- publication -----

  /** The later version wins, of two of one second the one with the lower id. */
  predicate Beats(e: Event, x: Event) {
    e.createdAt > x.createdAt || (e.createdAt == x.createdAt && LexLess(e.id, x.id))
  }

  /** An event enters the store if no marker forbids it, it has not expired, it is
      not there, and it beats the version that is. */
  ghost predicate Enters(s: State, e: Event, now: nat) {
    && !Forbidden(s, e) && !HasExpired(e, now) && e.id !in s.stored
    && forall id :: id in s.stored && SameVersion(s.stored[id], e) ==> Beats(e, s.stored[id])
  }

  lemma OthersVersion(s: State, e: Event, id: string)
    requires IndexOk(s) && id in s.stored
    ensures SameVersion(s.stored[id], e) <==>
      SlotOf(e).Some? && SlotOf(e).value in s.slots && s.slots[SlotOf(e).value] == id
  {
    SlotsAreVersions(s.stored[id], e);
  }

  lemma EntersExactly(s: State, e: Event, now: nat)
    requires IndexOk(s) && (e.id in s.stored ==> s.stored[e.id] == e)
    ensures PutStep(s, e, now).1 in {Stored, Replaced} <==> Enters(s, e, now)
  {
    ForbiddenExactly(s, e);
    ExpiredExactly(e, now);
    LexTotal(e.id, e.id);
    forall id | id in s.stored ensures SameVersion(s.stored[id], e) <==>
      SlotOf(e).Some? && SlotOf(e).value in s.slots && s.slots[SlotOf(e).value] == id
    {
      OthersVersion(s, e, id);
    }
  }

  /** A publication adds the event if it enters, and takes out the versions of it
      then and nothing else; otherwise it changes nothing. */
  lemma PutExactly(s: State, e: Event, now: nat)
    requires IndexOk(s) && (e.id in s.stored ==> s.stored[e.id] == e)
    ensures
      var (t, outcome) := PutStep(s, e, now);
      && (outcome in {Stored, Replaced} <==> Enters(s, e, now)) && SameMarkers(s, t)
      && (Enters(s, e, now) ==> e.id in t.stored && t.stored[e.id] == e)
      && (outcome == Replaced <==> Enters(s, e, now) && exists id :: id in s.stored && SameVersion(s.stored[id], e))
      && (!Enters(s, e, now) ==> t == s)
      && forall id :: id != e.id ==>
           (id in t.stored <==> id in s.stored && !(Enters(s, e, now) && SameVersion(s.stored[id], e)))
           && (id in t.stored ==> t.stored[id] == s.stored[id])
  {
    EntersExactly(s, e, now);
    forall id | id in s.stored ensures SameVersion(s.stored[id], e) <==>
      SlotOf(e).Some? && SlotOf(e).value in s.slots && s.slots[SlotOf(e).value] == id
    {
      OthersVersion(s, e, id);
    }
  }

  ghost predicate HasExpired(e: Event, now: nat) {
    exists i :: 0 <= i < |e.tags| && Due(e.tags[i], now)
  }

  predicate Tombstoned(s: State, e: Event) {
    e.id in s.deletedIds || (e.id, Lower(e.pubkey)) in s.absentBlocks
  }

  /** Why an event does not enter, in the order the reasons are looked for. */
  ghost function Expected(s: State, e: Event, now: nat): Outcome {
    if e.pubkey in s.vanished then Invalid
    else if Tombstoned(s, e) || RefusedByPurge(s, e) then PreviouslyDeleted
    else if 20_000 <= e.kind <= 29_999 then Ephemeral
    else if HasExpired(e, now) then ExpiredEvent
    else if RefusedByAddress(s, e) then PreviouslyDeleted
    else if !Enters(s, e, now) then Duplicate
    else if exists id :: id in s.stored && SameVersion(s.stored[id], e) then Replaced
    else Stored
  }

  lemma OutcomeExactly(s: State, e: Event, now: nat)
    requires IndexOk(s) && (e.id in s.stored ==> s.stored[e.id] == e)
    ensures PutStep(s, e, now).1 == Expected(s, e, now)
  {
    PurgeRefusesExactly(s, e);
    AddressRefusesExactly(s, e);
    ExpiredExactly(e, now);
    PutExactly(s, e, now);
  }

  /** In every reachable state the store holds one version of an event. */
  lemma OneVersionStored(u: string -> Event, ops: seq<Op>, a: string, b: string)
    requires AllAuthentic(u, ops)
    requires
      var s := Run(u, EMPTY, ops).state;
      a in s.stored && b in s.stored && SameVersion(s.stored[a], s.stored[b])
    ensures a == b
  {
    ReachableStates(u, ops);
    var s := Run(u, EMPTY, ops).state;
    SlotsAreVersions(s.stored[a], s.stored[b]);
  }

  // ----- removals -----

  /** An `a` target of the request's author: the address of an event, of a time up
      to the request's. */
  ghost predicate ReachedByAddress(requester: string, addresses: seq<Address>, created: nat, e: Event) {
    && e.createdAt <= created
    && exists i ::
         && 0 <= i < |addresses| && EqIgnoreCase(addresses[i].pubkey, requester)
         && Addresses(Slot(addresses[i].kind, addresses[i].pubkey, addresses[i].d), e)
  }

  lemma CutsExactly(requester: string, addresses: seq<Address>, created: nat, e: Event)
    ensures Cuts(requester, addresses, created, e) <==> ReachedByAddress(requester, addresses, created, e)
  {
    forall i | 0 <= i < |addresses|
      ensures Addresses(Slot(addresses[i].kind, addresses[i].pubkey, addresses[i].d), e)
        <==> SlotOf(e) == Some(AddressSlot(addresses[i]))
    {
      AddressesExactly(Slot(addresses[i].kind, addresses[i].pubkey, addresses[i].d), e);
    }
  }

  /** A deletion request reaches its author's events: those it names by id, stored
      deletion requests excepted, and those it names by address. It removes
      exactly these, and forbids exactly these from then on. */
  lemma DeletionReach(
    u: string -> Event, s: State, requester: string, targets: seq<string>, addresses: seq<Address>, created: nat,
    e: Event)
    requires Inv(s) && Known(u, s) && u(e.id) == e
    ensures
      var t := DeleteStep(s, requester, targets, addresses, created).0;
      var named := e.id in targets && EqIgnoreCase(e.pubkey, requester) && !(e.id in s.stored && e.kind == 5);
      var reached := named || ReachedByAddress(requester, addresses, created, e);
      && (e.id in t.stored <==> e.id in s.stored && !reached)
      && (Forbidden(t, e) <==> Forbidden(s, e) || reached)
  {
    DeletionExact(u, s, requester, targets, addresses, created, e);
    CutsExactly(requester, addresses, created, e);
    ForbiddenExactly(s, e);
    ForbiddenExactly(DeleteStep(s, requester, targets, addresses, created).0, e);
  }

  /** The group of a stored event: its first `h` value, for relay metadata its
      first `d` value, and none for a membership notice. */
  ghost predicate OfGroup(e: Event, group: string) {
    e.kind != 44_100 && e.kind != 44_101
    && FirstValue(e.tags, if 39_000 <= e.kind <= 39_005 then "d" else "h", group)
  }

  lemma OfGroupExactly(e: Event, group: string)
    ensures GroupIdAny(e) == Some(group) <==> OfGroup(e, group)
  {
    FirstTagExactly(e.tags, "d");
    FirstTagExactly(e.tags, "h");
  }

  /** A kind:9005 removes exactly the named stored events of its group that are
      neither deletion requests nor relay metadata. */
  lemma GroupDeletionReach(u: string -> Event, s: State, targets: seq<string>, group: string, e: Event)
    requires Inv(s) && Known(u, s) && u(e.id) == e
    ensures
      var t := GroupDeleteStep(s, targets, group).0;
      var reached := e.id in s.stored && e.id in targets && OfGroup(e, group) && e.kind != 5
        && !(39_000 <= e.kind <= 39_005);
      && (e.id in t.stored <==> e.id in s.stored && !reached)
      && (Forbidden(t, e) <==> Forbidden(s, e) || reached)
  {
    GroupDeletionExact(u, s, targets, group, e);
    OfGroupExactly(e, group);
    PurgedBefore(s, GroupDeleteStep(s, targets, group).0, e);
  }

  lemma PurgedBefore(s: State, t: State, e: Event)
    requires s.purgedGroups == t.purgedGroups && s.addressTombstones == t.addressTombstones
    ensures RefusedByPurge(s, e) <==> RefusedByPurge(t, e)
    ensures RefusedByAddress(s, e) <==> RefusedByAddress(t, e)
  {
  }

  ghost predicate HistoryOf(e: Event, group: string) {
    exists i :: 0 <= i < |e.tags| && TiesTo(e, e.tags[i], group)
  }

  lemma HistoryExactly(e: Event, group: string)
    ensures InGroup(e, group) <==> HistoryOf(e, group)
  {
    InGroupByTag(e, group);
    if i :| 0 <= i < |e.tags| && NamesGroup(e, e.tags[i], group) {
      assert TiesTo(e, e.tags[i], group);
    }
    if i :| 0 <= i < |e.tags| && TiesTo(e, e.tags[i], group) {
      assert NamesGroup(e, e.tags[i], group);
    }
  }

  /** The mark a purge leaves: the greatest of its time and the earlier mark, and
      for the cut of the newest removed event too; nothing beyond these. */
  ghost predicate IsPurgeMark(s: State, group: string, now: nat, mark: PurgeMark) {
    var prev := if group in s.purgedGroups then s.purgedGroups[group] else PurgeMark(0, 0);
    && mark.purgeNow == (if prev.purgeNow < now then now else prev.purgeNow)
    && now <= mark.cut && prev.cut <= mark.cut
    && (forall id :: id in s.stored && HistoryOf(s.stored[id], group) ==> s.stored[id].createdAt <= mark.cut)
    && (|| mark.cut == now || mark.cut == prev.cut
        || exists id :: id in s.stored && HistoryOf(s.stored[id], group) && s.stored[id].createdAt == mark.cut)
  }

  /** A kind:9008 removes exactly the events tied to its group, and leaves exactly
      this mark. */
  lemma PurgeReach(s: State, group: string, now: nat, e: Event)
    requires Inv(s) && (e.id in s.stored ==> s.stored[e.id] == e)
    ensures
      var t := PurgeGroupStep(s, group, now).0;
      && (e.id in t.stored <==> e.id in s.stored && !HistoryOf(e, group))
      && group in t.purgedGroups && IsPurgeMark(s, group, now, t.purgedGroups[group])
      && t == s.(stored := t.stored, slots := t.slots, purgedGroups := s.purgedGroups[group := t.purgedGroups[group]])
  {
    PurgeExact(s, group, now, e);
    HistoryExactly(e, group);
    forall id | id in s.stored ensures InGroup(s.stored[id], group) <==> HistoryOf(s.stored[id], group) {
      HistoryExactly(s.stored[id], group);
    }
    assert IsMaxCreated(s.stored, GroupHistory(s, group), MaxCreated(s.stored, GroupHistory(s, group)));
  }

  /** A request to vanish that an earlier one covers changes nothing; any other
      removes exactly the author's events up to its time, in any spelling, and
      forbids exactly this spelling. */
  lemma VanishReach(s: State, pubkey: string, until: nat, e: Event)
    requires Inv(s) && (e.id in s.stored ==> s.stored[e.id] == e)
    ensures
      var t := VanishStep(s, pubkey, until).0;
      var covered := pubkey in s.vanished && until <= s.vanished[pubkey];
      && (covered ==> t == s)
      && (!covered ==>
            && t == s.(stored := t.stored, slots := t.slots, vanished := s.vanished[pubkey := until])
            && (e.id in t.stored <==> e.id in s.stored && !(EqIgnoreCase(e.pubkey, pubkey) && e.createdAt <= until))
            && (Forbidden(t, e) <==> Forbidden(s, e) || e.pubkey == pubkey))
  {
    if !(pubkey in s.vanished && until <= s.vanished[pubkey]) {
      VanishExact(s, pubkey, until, e);
      ForbiddenExactly(s, e);
      ForbiddenExactly(VanishStep(s, pubkey, until).0, e);
    }
  }

  /** The expiry purge removes exactly the events whose time has come. */
  lemma ExpiryReach(s: State, now: nat, e: Event)
    requires e.id in s.stored && s.stored[e.id] == e
    ensures
      var t := PurgeExpiredStep(s, now).0;
      (e.id in t.stored <==> !HasExpired(e, now)) && SameMarkers(s, t)
  {
    ExpiredExactly(e, now);
  }
}
