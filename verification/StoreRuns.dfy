/** What every run of the store keeps: index agreement, permanent refusals and
    the count of stored events.

    An event id is the hash of the event, so an id determines the event. That
    is the parameter `u` below: `u(id)` is the one event with that id, and every
    published event is `u` of its own id. */
module StoreRuns {
  import opened Text
  import opened Events
  import opened Store

  datatype Op =
    | Put(event: Event, now: nat)
    | PurgeExpired(now: nat)
    | DeleteRequest(requester: string, targets: seq<string>, addresses: seq<Address>, created: nat)
    | GroupDelete(targets: seq<string>, group: string)
    | PurgeGroup(group: string, now: nat)
    | Vanish(pubkey: string, until: nat)

  ghost predicate Known(u: string -> Event, s: State) {
    forall id :: id in s.stored ==> s.stored[id] == u(id)
  }

  ghost predicate Authentic(u: string -> Event, op: Op) {
    op.Put? ==> u(op.event.id) == op.event
  }

  ghost predicate AllAuthentic(u: string -> Event, ops: seq<Op>) {
    forall i :: 0 <= i < |ops| ==> Authentic(u, ops[i])
  }

  /** The new state, how many events a `Stored` outcome added and how many the
      operation reported as removed. */
  datatype Effect = Effect(state: State, added: nat, removed: nat)

  ghost function Step(u: string -> Event, s: State, op: Op): (r: Effect)
    requires Inv(s) && Known(u, s) && Authentic(u, op)
    ensures Inv(r.state) && Known(u, r.state)
    ensures |r.state.stored| == |s.stored| + r.added - r.removed
  {
    StepKeeps(u, s, op);
    Raw(s, op)
  }

  ghost function Raw(s: State, op: Op): Effect
    requires Inv(s)
  {
    match op
    case Put(e, now) =>
      var (t, outcome) := PutStep(s, e, now);
      Effect(t, if outcome == Stored then 1 else 0, 0)
    case PurgeExpired(now) => Removal(PurgeExpiredStep(s, now))
    case DeleteRequest(requester, targets, addresses, created) =>
      Removal(DeleteStep(s, requester, targets, addresses, created))
    case GroupDelete(targets, group) => Removal(GroupDeleteStep(s, targets, group))
    case PurgeGroup(group, now) => Removal(PurgeGroupStep(s, group, now))
    case Vanish(pubkey, until) => Removal(VanishStep(s, pubkey, until))
  }

  ghost function Removal(r: (State, nat)): Effect { Effect(r.0, 0, r.1) }

  // ----- markers only grow -----

  predicate NotBefore(a: PurgeMark, b: PurgeMark) {
    a.purgeNow <= b.purgeNow && a.cut <= b.cut
  }

  ghost predicate MarkersGrow(s: State, t: State) {
    && s.deletedIds <= t.deletedIds
    && s.absentBlocks <= t.absentBlocks
    && (forall k :: k in s.addressTombstones ==>
          k in t.addressTombstones && s.addressTombstones[k] <= t.addressTombstones[k])
    && (forall k :: k in s.vanished ==> k in t.vanished && s.vanished[k] <= t.vanished[k])
    && (forall k :: k in s.purgedGroups ==> k in t.purgedGroups && NotBefore(s.purgedGroups[k], t.purgedGroups[k]))
  }

  /** A publication the markers refuse whatever the clock says. */
  ghost predicate Refuses(s: State, e: Event) {
    Barred(s, e) || e.pubkey in s.vanished
  }

  lemma PurgedBlocksGrow(s: State, t: State, e: Event)
    requires MarkersGrow(s, t) && PurgedBlocks(s, e)
    ensures PurgedBlocks(t, e)
  {
    var i :| 0 <= i < |e.tags| && TagPurged(s, e, e.tags[i]);
    assert TagPurged(t, e, e.tags[i]);
  }

  lemma RefusesGrows(s: State, t: State, e: Event)
    requires MarkersGrow(s, t) && Refuses(s, e)
    ensures Refuses(t, e)
  {
    if PurgedBlocks(s, e) {
      PurgedBlocksGrow(s, t, e);
    }
  }

  // ----- one event enters or leaves the store -----

  lemma RemoveIndex(stored: map<string, Event>, slots: map<Slot, string>, id: string)
    requires IndexAgrees(stored, slots) && id in stored
    ensures SlotOf(stored[id]).None? ==> IndexAgrees(stored - {id}, slots)
    ensures SlotOf(stored[id]).Some? ==> IndexAgrees(stored - {id}, slots - {SlotOf(stored[id]).value})
    ensures |stored - {id}| == |stored| - 1
  {
    MapSubtractSize(stored, {id});
  }

  lemma InsertIndex(stored: map<string, Event>, slots: map<Slot, string>, e: Event)
    requires IndexAgrees(stored, slots) && e.id !in stored
    requires SlotOf(e).Some? ==> SlotOf(e).value !in slots
    ensures SlotOf(e).None? ==> IndexAgrees(stored[e.id := e], slots)
    ensures SlotOf(e).Some? ==> IndexAgrees(stored[e.id := e], slots[SlotOf(e).value := e.id])
    ensures |stored[e.id := e]| == |stored| + 1
  {
  }

  lemma DropIndex(s: State, doomed: set<string>)
    requires IndexOk(s)
    ensures IndexOk(DropAll(s, doomed))
  {
  }

  lemma RemoveKeepsIndex(s: State, id: string)
    requires IndexOk(s)
    ensures IndexOk(RemoveStored(s, id))
    ensures RemoveStored(s, id).stored == s.stored - {id}
    ensures id in s.stored ==> |RemoveStored(s, id).stored| == |s.stored| - 1
  {
    if id in s.stored {
      RemoveIndex(s.stored, s.slots, id);
    }
  }

  /** A stored event's slot is the only one that points at it. */
  lemma SlotsWithout(stored: map<string, Event>, slots: map<Slot, string>, id: string)
    requires IndexAgrees(stored, slots)
    ensures SlotsLeft(slots, {id}) ==
      if id in stored && SlotOf(stored[id]).Some? then slots - {SlotOf(stored[id]).value} else slots
  {
    var left := if id in stored && SlotOf(stored[id]).Some? then slots - {SlotOf(stored[id]).value} else slots;
    assert forall slot :: slot in SlotsLeft(slots, {id}) <==> slot in left;
  }

  lemma RemoveSlots(s: State, id: string)
    requires IndexOk(s)
    ensures RemoveStored(s, id).slots ==
      if id in s.stored && SlotOf(s.stored[id]).Some? then s.slots - {SlotOf(s.stored[id]).value} else s.slots
  {
  }

  /** Removing one event is dropping the set of that event. */
  lemma RemoveIsDrop(s: State, id: string)
    requires IndexOk(s)
    ensures RemoveStored(s, id) == DropAll(s, {id})
  {
    SlotsWithout(s.stored, s.slots, id);
    RemoveSlots(s, id);
    if id !in s.stored {
      assert s.stored - {id} == s.stored;
    }
  }

  ghost predicate SameMarkers(s: State, t: State) {
    t == s.(stored := t.stored, slots := t.slots)
  }

  /** Whether an event is barred depends on the markers alone. */
  lemma BarredByMarkers(s: State, t: State, e: Event)
    requires SameMarkers(s, t)
    ensures Barred(s, e) == Barred(t, e)
  {
    assert forall i :: 0 <= i < |e.tags| ==> TagPurged(s, e, e.tags[i]) == TagPurged(t, e, e.tags[i]);
  }

  lemma CleanByMarkers(s: State, t: State)
    requires SameMarkers(s, t) && Clean(s)
    requires forall id :: id in t.stored ==> id in s.stored && t.stored[id] == s.stored[id]
    ensures Clean(t)
  {
    forall k | k in t.stored ensures !Barred(t, t.stored[k]) {
      BarredByMarkers(s, t, t.stored[k]);
    }
  }

  /** What deleting an event and recording its tombstone keeps. */
  lemma DeleteKeeps(u: string -> Event, s: State, id: string)
    requires Inv(s) && Known(u, s) && id in s.stored
    ensures Inv(Delete(s, id)) && Known(u, Delete(s, id))
    ensures |Delete(s, id).stored| == |s.stored| - 1
  {
    RemoveKeepsIndex(s, id);
    var t := Delete(s, id);
    forall k | k in t.stored ensures !Barred(t, t.stored[k]) {
      assert !Barred(s, s.stored[k]);
    }
  }

  lemma MapSubtractSize<K, V>(m: map<K, V>, gone: set<K>)
    requires gone <= m.Keys
    ensures |m - gone| == |m| - |gone|
  {
    assert (m - gone).Keys == m.Keys - gone;
    assert |m - gone| == |(m - gone).Keys|;
  }

  /** Dropping a set of events keeps the index and, the markers unchanged,
      everything else. */
  lemma DropAllKeeps(u: string -> Event, s: State, doomed: set<string>)
    requires Inv(s) && Known(u, s) && doomed <= s.stored.Keys
    ensures Inv(DropAll(s, doomed)) && Known(u, DropAll(s, doomed))
    ensures |DropAll(s, doomed).stored| == |s.stored| - |doomed|
  {
    MapSubtractSize(s.stored, doomed);
    var t := DropAll(s, doomed);
    forall k | k in t.stored ensures !Barred(t, t.stored[k]) {
      assert !Barred(s, s.stored[k]);
    }
  }

  // ----- each operation -----

  /** A fresh event that no marker bars may join the store. */
  lemma InsertKeeps(u: string -> Event, s: State, e: Event)
    requires Inv(s) && Known(u, s) && u(e.id) == e
    requires e.id !in s.stored && (SlotOf(e).Some? ==> SlotOf(e).value !in s.slots)
    requires !Barred(s, e)
    ensures Inv(Insert(s, e)) && Known(u, Insert(s, e))
    ensures |Insert(s, e).stored| == |s.stored| + 1
  {
    InsertIndex(s.stored, s.slots, e);
    var t := Insert(s, e);
    forall k | k in t.stored ensures !Barred(t, t.stored[k]) {
      BarredByMarkers(s, t, t.stored[k]);
    }
  }

  lemma RemoveKeeps(u: string -> Event, s: State, id: string)
    requires Inv(s) && Known(u, s) && id in s.stored
    ensures Inv(RemoveStored(s, id)) && Known(u, RemoveStored(s, id))
    ensures |RemoveStored(s, id).stored| == |s.stored| - 1
    ensures SameMarkers(s, RemoveStored(s, id))
  {
    RemoveKeepsIndex(s, id);
    CleanByMarkers(s, RemoveStored(s, id));
  }

  /** A version no marker bars may take over its slot. */
  lemma ReplaceKeeps(u: string -> Event, s: State, e: Event)
    requires Inv(s) && Known(u, s) && u(e.id) == e
    requires SlotOf(e).Some? && SlotOf(e).value in s.slots && !Barred(s, e)
    ensures
      var t := Insert(RemoveStored(s, s.slots[SlotOf(e).value]), e);
      Inv(t) && Known(u, t) && SameMarkers(s, t) && |t.stored| == |s.stored|
  {
    var id := s.slots[SlotOf(e).value];
    RemoveKeeps(u, s, id);
    BarredByMarkers(s, RemoveStored(s, id), e);
    InsertKeeps(u, RemoveStored(s, id), e);
  }

  /** What publishing does, by its outcome. */
  lemma PutCases(s: State, e: Event, now: nat)
    requires IndexOk(s)
    ensures
      var (t, outcome) := PutStep(s, e, now);
      && (outcome == Stored || outcome == Replaced ==> !Barred(s, e))
      && (outcome == Stored ==>
           t == Insert(s, e) && if SlotOf(e).Some? then SlotOf(e).value !in s.slots else e.id !in s.stored)
      && (outcome == Replaced ==>
            && SlotOf(e).Some? && SlotOf(e).value in s.slots
            && t == Insert(RemoveStored(s, s.slots[SlotOf(e).value]), e))
      && (outcome != Stored && outcome != Replaced ==> t == s)
  {
  }

  lemma PutKeeps(u: string -> Event, s: State, e: Event, now: nat)
    requires Inv(s) && Known(u, s) && u(e.id) == e
    ensures
      var (t, outcome) := PutStep(s, e, now);
      && Inv(t) && Known(u, t) && SameMarkers(s, t)
      && |t.stored| == |s.stored| + (if outcome == Stored then 1 else 0)
  {
    PutCases(s, e, now);
    var outcome := PutStep(s, e, now).1;
    if outcome == Replaced {
      ReplaceKeeps(u, s, e);
    } else if outcome == Stored {
      InsertKeeps(u, s, e);
    }
  }

  lemma TargetKeeps(u: string -> Event, s: State, requester: string, id: string)
    requires Inv(s) && Known(u, s)
    ensures
      var (t, n) := TargetStep(s, requester, id);
      Inv(t) && Known(u, t) && |t.stored| == |s.stored| - n
  {
    var (t, n) := TargetStep(s, requester, id);
    if n == 1 {
      DeleteKeeps(u, s, id);
    } else {
      forall k | k in t.stored ensures !Barred(t, t.stored[k]) {
        assert !Barred(s, s.stored[k]);
      }
    }
  }

  lemma {:induction false} TargetsKeep(u: string -> Event, s: State, requester: string, targets: seq<string>)
    requires Inv(s) && Known(u, s)
    ensures
      var (t, n) := TargetsStep(s, requester, targets);
      Inv(t) && Known(u, t) && |t.stored| == |s.stored| - n
    decreases |targets|
  {
    if targets != [] {
      var prefix := targets[..|targets| - 1];
      TargetsKeep(u, s, requester, prefix);
      TargetKeeps(u, TargetsStep(s, requester, prefix).0, requester, targets[|targets| - 1]);
    }
  }

  function WithCut(s: State, slot: Slot, cut: nat): State {
    s.(addressTombstones := s.addressTombstones[slot := cut])
  }

  lemma BarredWithCut(s: State, slot: Slot, cut: nat, e: Event)
    ensures Barred(WithCut(s, slot, cut), e) ==> Barred(s, e) || (SlotOf(e) == Some(slot) && e.createdAt <= cut)
  {
    var t := WithCut(s, slot, cut);
    assert forall i :: 0 <= i < |e.tags| ==> TagPurged(s, e, e.tags[i]) == TagPurged(t, e, e.tags[i]);
  }

  /** Raising the cut of an address keeps the store clean once no current
      version at or below it is left. */
  lemma WithCutKeeps(u: string -> Event, s: State, slot: Slot, cut: nat)
    requires Inv(s) && Known(u, s)
    requires slot in s.slots ==> s.stored[s.slots[slot]].createdAt > cut
    ensures Inv(WithCut(s, slot, cut)) && Known(u, WithCut(s, slot, cut))
  {
    var t := WithCut(s, slot, cut);
    forall k | k in t.stored ensures !Barred(t, t.stored[k]) {
      BarredWithCut(s, slot, cut, t.stored[k]);
      assert !Barred(s, s.stored[k]);
    }
  }

  lemma DeleteEmptiesSlot(s: State, slot: Slot)
    requires IndexOk(s) && slot in s.slots
    ensures slot !in Delete(s, s.slots[slot]).slots
  {
  }

  /** What one `a` target does: the version goes, and then the cut moves up. */
  lemma AddressCases(s: State, requester: string, a: Address, created: nat)
    requires IndexOk(s) && EqIgnoreCase(a.pubkey, requester)
    ensures
      var slot := AddressSlot(a);
      var cut := Max(if slot in s.addressTombstones then s.addressTombstones[slot] else 0, created);
      AddressStep(s, requester, a, created) ==
        if slot in s.slots && s.stored[s.slots[slot]].createdAt <= created
        then (WithCut(Delete(s, s.slots[slot]), slot, cut), 1) else (WithCut(s, slot, cut), 0)
  {
  }

  lemma CurrentAboveCut(s: State, slot: Slot)
    requires Inv(s) && slot in s.slots && slot in s.addressTombstones
    ensures s.stored[s.slots[slot]].createdAt > s.addressTombstones[slot]
  {
    assert !Barred(s, s.stored[s.slots[slot]]);
  }

  lemma AddressKeeps(u: string -> Event, s: State, requester: string, a: Address, created: nat)
    requires Inv(s) && Known(u, s)
    ensures
      var (t, n) := AddressStep(s, requester, a, created);
      Inv(t) && Known(u, t) && |t.stored| == |s.stored| - n
  {
    if EqIgnoreCase(a.pubkey, requester) {
      AddressCases(s, requester, a, created);
      var slot := AddressSlot(a);
      var cut := Max(if slot in s.addressTombstones then s.addressTombstones[slot] else 0, created);
      if slot in s.slots && s.stored[s.slots[slot]].createdAt <= created {
        DeleteKeeps(u, s, s.slots[slot]);
        DeleteEmptiesSlot(s, slot);
        WithCutKeeps(u, Delete(s, s.slots[slot]), slot, cut);
      } else {
        if slot in s.slots && slot in s.addressTombstones {
          CurrentAboveCut(s, slot);
        }
        WithCutKeeps(u, s, slot, cut);
      }
    }
  }

  lemma {:induction false} AddressesKeep(
    u: string -> Event, s: State, requester: string, addresses: seq<Address>, created: nat)
    requires Inv(s) && Known(u, s)
    ensures
      var (t, n) := AddressesStep(s, requester, addresses, created);
      Inv(t) && Known(u, t) && |t.stored| == |s.stored| - n
    decreases |addresses|
  {
    if addresses != [] {
      var prefix := addresses[..|addresses| - 1];
      AddressesKeep(u, s, requester, prefix, created);
      AddressKeeps(u, AddressesStep(s, requester, prefix, created).0, requester, addresses[|addresses| - 1], created);
    }
  }

  lemma {:induction false} GroupDeleteKeeps(u: string -> Event, s: State, targets: seq<string>, group: string)
    requires Inv(s) && Known(u, s)
    ensures
      var (t, n) := GroupDeleteStep(s, targets, group);
      Inv(t) && Known(u, t) && |t.stored| == |s.stored| - n
    decreases |targets|
  {
    if targets != [] {
      var prefix, id := targets[..|targets| - 1], targets[|targets| - 1];
      GroupDeleteKeeps(u, s, prefix, group);
      var t := GroupDeleteStep(s, prefix, group).0;
      if GroupTargetStep(t, id, group).1 == 1 {
        DeleteKeeps(u, t, id);
      }
    }
  }

  function WithPurge(s: State, group: string, mark: PurgeMark): State {
    s.(purgedGroups := s.purgedGroups[group := mark])
  }

  lemma BarredWithPurge(s: State, group: string, mark: PurgeMark, e: Event)
    ensures Barred(WithPurge(s, group, mark), e) ==> Barred(s, e) || InGroup(e, group)
  {
    var t := WithPurge(s, group, mark);
    if PurgedBlocks(t, e) && !PurgedBlocks(s, e) {
      var i :| 0 <= i < |e.tags| && TagPurged(t, e, e.tags[i]);
      assert !TagPurged(s, e, e.tags[i]);
      assert IsTag(e.tags[i], e.tags[i][0], group);
    }
  }

  lemma PurgeGroupKeeps(u: string -> Event, s: State, group: string, now: nat)
    requires Inv(s) && Known(u, s)
    ensures
      var (t, n) := PurgeGroupStep(s, group, now);
      Inv(t) && Known(u, t) && |t.stored| == |s.stored| - n
  {
    var doomed := GroupHistory(s, group);
    DropAllKeeps(u, s, doomed);
    var t := PurgeGroupStep(s, group, now).0;
    var base := DropAll(s, doomed);
    forall k | k in t.stored ensures !Barred(t, t.stored[k]) {
      BarredWithPurge(base, group, t.purgedGroups[group], t.stored[k]);
      assert !Barred(base, base.stored[k]);
    }
  }

  function WithVanish(s: State, pubkey: string, mark: nat): State {
    s.(vanished := s.vanished[pubkey := mark])
  }

  lemma BarredWithVanish(s: State, pubkey: string, mark: nat, e: Event)
    ensures Barred(WithVanish(s, pubkey, mark), e) ==> Barred(s, e) || (e.pubkey == pubkey && e.createdAt <= mark)
  {
    var t := WithVanish(s, pubkey, mark);
    assert forall i :: 0 <= i < |e.tags| ==> TagPurged(s, e, e.tags[i]) == TagPurged(t, e, e.tags[i]);
  }

  lemma VanishKeeps(u: string -> Event, s: State, pubkey: string, until: nat)
    requires Inv(s) && Known(u, s)
    ensures
      var (t, n) := VanishStep(s, pubkey, until);
      Inv(t) && Known(u, t) && |t.stored| == |s.stored| - n
  {
    if !(pubkey in s.vanished && s.vanished[pubkey] >= until) {
      var mark := VanishMark(s, pubkey, until);
      var doomed := AuthoredUpTo(s, pubkey, mark);
      DropAllKeeps(u, s, doomed);
      var base := DropAll(s, doomed);
      var t := WithVanish(base, pubkey, mark);
      forall k | k in t.stored ensures !Barred(t, t.stored[k]) {
        BarredWithVanish(base, pubkey, mark, t.stored[k]);
        assert !Barred(base, base.stored[k]);
      }
    }
  }

  lemma StepKeeps(u: string -> Event, s: State, op: Op)
    requires Inv(s) && Known(u, s) && Authentic(u, op)
    ensures
      var r := Raw(s, op);
      && Inv(r.state) && Known(u, r.state)
      && |r.state.stored| == |s.stored| + r.added - r.removed
  {
    match op
    case Put(e, now) => PutKeeps(u, s, e, now);
    case PurgeExpired(now) => DropAllKeeps(u, s, ExpiredIds(s, now));
    case DeleteRequest(requester, targets, addresses, created) =>
      TargetsKeep(u, s, requester, targets);
      AddressesKeep(u, TargetsStep(s, requester, targets).0, requester, addresses, created);
    case GroupDelete(targets, group) => GroupDeleteKeeps(u, s, targets, group);
    case PurgeGroup(group, now) => PurgeGroupKeeps(u, s, group, now);
    case Vanish(pubkey, until) => VanishKeeps(u, s, pubkey, until);
  }

  // ----- whole runs -----

  /** A run of operations; `added` and `removed` are summed over it. The
      contract is the store's safety: the index agrees and nothing barred is
      stored in any reachable state, and the number of stored events is what
      was reported stored minus what was reported removed. */
  ghost function Run(u: string -> Event, s: State, ops: seq<Op>): (r: Effect)
    requires Inv(s) && Known(u, s) && AllAuthentic(u, ops)
    ensures Inv(r.state) && Known(u, r.state)
    ensures |r.state.stored| == |s.stored| + r.added - r.removed
    decreases |ops|
  {
    if ops == [] then Effect(s, 0, 0)
    else
      var first := Step(u, s, ops[0]);
      var rest := Run(u, first.state, ops[1..]);
      Effect(rest.state, first.added + rest.added, first.removed + rest.removed)
  }

  /** Every state reachable from an empty store. */
  lemma ReachableStates(u: string -> Event, ops: seq<Op>)
    requires AllAuthentic(u, ops)
    ensures
      var r := Run(u, EMPTY, ops);
      && IndexOk(r.state)
      && (forall id :: id in r.state.stored ==> !Barred(r.state, r.state.stored[id]))
      && |r.state.stored| == r.added - r.removed
  {
    assert Inv(EMPTY) && Known(u, EMPTY);
  }

  /** A refusal that does not come from the clock comes from a marker, and a
      marker refuses at every time. */
  lemma RefusalIsAMarker(s: State, e: Event, now: nat)
    requires Inv(s)
    ensures PutStep(s, e, now).1 in {Invalid, PreviouslyDeleted, Ephemeral} ==> Refuses(s, e)
    ensures Refuses(s, e) ==>
      PutStep(s, e, now).0 == s && PutStep(s, e, now).1 in {Invalid, PreviouslyDeleted, Ephemeral, ExpiredEvent}
  {
  }

  lemma PutStoresOnly(s: State, e: Event, now: nat)
    requires Inv(s)
    ensures PutStep(s, e, now).0.stored.Keys <= s.stored.Keys + {e.id}
  {
  }

  lemma StepDoesNotStore(u: string -> Event, s: State, op: Op, e: Event)
    requires Inv(s) && Known(u, s) && Authentic(u, op)
    requires Refuses(s, e) && u(e.id) == e && e.id !in s.stored
    ensures e.id !in Step(u, s, op).state.stored
  {
    if op.Put? {
      RefusalIsAMarker(s, e, op.now);
      PutStoresOnly(s, op.event, op.now);
      assert e.id == op.event.id ==> op.event == e;
    } else {
      RemovalShrinks(s, op);
    }
  }

  /** What every operation does: events only leave a removal, and markers only grow. */
  ghost predicate Shrinks(s: State, t: State) {
    t.stored.Keys <= s.stored.Keys && MarkersGrow(s, t)
  }

  lemma ShrinksTransitive(s: State, t: State, r: State)
    requires Shrinks(s, t) && Shrinks(t, r)
    ensures Shrinks(s, r)
  {
    forall k | k in s.purgedGroups ensures NotBefore(s.purgedGroups[k], r.purgedGroups[k]) {
      assert NotBefore(t.purgedGroups[k], r.purgedGroups[k]);
    }
  }

  lemma {:induction false} TargetsShrink(s: State, requester: string, targets: seq<string>)
    ensures Shrinks(s, TargetsStep(s, requester, targets).0)
    decreases |targets|
  {
    if targets != [] {
      var prefix := targets[..|targets| - 1];
      TargetsShrink(s, requester, prefix);
      var t := TargetsStep(s, requester, prefix).0;
      ShrinksTransitive(s, t, TargetStep(t, requester, targets[|targets| - 1]).0);
    }
  }

  lemma {:induction false} AddressesShrink(s: State, requester: string, addresses: seq<Address>, created: nat)
    ensures Shrinks(s, AddressesStep(s, requester, addresses, created).0)
    decreases |addresses|
  {
    if addresses != [] {
      var prefix := addresses[..|addresses| - 1];
      AddressesShrink(s, requester, prefix, created);
      var t := AddressesStep(s, requester, prefix, created).0;
      ShrinksTransitive(s, t, AddressStep(t, requester, addresses[|addresses| - 1], created).0);
    }
  }

  lemma {:induction false} GroupDeleteShrinks(s: State, targets: seq<string>, group: string)
    ensures Shrinks(s, GroupDeleteStep(s, targets, group).0)
    decreases |targets|
  {
    if targets != [] {
      var prefix := targets[..|targets| - 1];
      GroupDeleteShrinks(s, prefix, group);
      var t := GroupDeleteStep(s, prefix, group).0;
      ShrinksTransitive(s, t, GroupTargetStep(t, targets[|targets| - 1], group).0);
    }
  }

  lemma RemovalShrinks(s: State, op: Op)
    requires Inv(s) && !op.Put?
    ensures Shrinks(s, Raw(s, op).state)
  {
    match op
    case PurgeExpired(now) =>
    case DeleteRequest(requester, targets, addresses, created) =>
      var t := TargetsStep(s, requester, targets).0;
      TargetsShrink(s, requester, targets);
      AddressesShrink(t, requester, addresses, created);
      ShrinksTransitive(s, t, AddressesStep(t, requester, addresses, created).0);
    case GroupDelete(targets, group) => GroupDeleteShrinks(s, targets, group);
    case PurgeGroup(group, now) =>
    case Vanish(pubkey, until) =>
  }

  lemma StepGrowsMarkers(u: string -> Event, s: State, op: Op)
    requires Inv(s) && Known(u, s) && Authentic(u, op)
    ensures MarkersGrow(s, Step(u, s, op).state)
  {
    if op.Put? {
      PutKeeps(u, s, op.event, op.now);
    } else {
      RemovalShrinks(s, op);
    }
  }

  /** No resurrection: an event a marker refuses is absent from every later
      state, whatever is published, deleted, purged or vanished in between. */
  lemma {:induction false} NoResurrection(u: string -> Event, s: State, ops: seq<Op>, e: Event)
    requires Inv(s) && Known(u, s) && AllAuthentic(u, ops)
    requires Refuses(s, e) && u(e.id) == e && e.id !in s.stored
    ensures e.id !in Run(u, s, ops).state.stored
    decreases |ops|
  {
    if ops != [] {
      StepDoesNotStore(u, s, ops[0], e);
      var t := Step(u, s, ops[0]).state;
      StepGrowsMarkers(u, s, ops[0]);
      RefusesGrows(s, t, e);
      NoResurrection(u, t, ops[1..], e);
    }
  }

  /** In particular a deleted id is gone for good. */
  lemma DeletedStaysDeleted(u: string -> Event, s: State, ops: seq<Op>, e: Event)
    requires Inv(s) && Known(u, s) && AllAuthentic(u, ops) && u(e.id) == e
    requires e.id in s.deletedIds
    ensures e.id !in Run(u, s, ops).state.stored
  {
    if e.id in s.stored {
      assert Barred(s, s.stored[e.id]);
    } else {
      NoResurrection(u, s, ops, e);
    }
  }
}
