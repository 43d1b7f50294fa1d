/** The store as it runs: seven collections updated in place, operation by
    operation. Every method is proved against the step function of Store.dfy,
    so what StoreRuns.dfy and StoreConvergence.dfy prove holds of it. */
module StoreModel {
  import opened Text
  import opened Events
  import opened Store
  import opened StoreRuns

  class Model {
    var stored: map<string, Event>
    var slots: map<Slot, string>
    var deletedIds: set<string>
    var absentBlocks: set<(string, string)>
    var addressTombstones: map<Slot, nat>
    var vanished: map<string, nat>
    var purgedGroups: map<string, PurgeMark>

    ghost function View(): State
      reads this
    {
      State(stored, slots, deletedIds, absentBlocks, addressTombstones, vanished, purgedGroups)
    }

    ghost predicate Valid()
      reads this
    {
      IndexOk(View())
    }

    constructor ()
      ensures View() == EMPTY && Valid()
    {
      stored, slots := map[], map[];
      deletedIds, absentBlocks := {}, {};
      addressTombstones, vanished, purgedGroups := map[], map[], map[];
    }

    method RemoveStored(id: string)
      modifies this`stored, this`slots
      ensures View() == Store.RemoveStored(old(View()), id)
    {
      if id in stored {
        var slot := SlotOf(stored[id]);
        stored := stored - {id};
        if slot.Some? && slot.value in slots && slots[slot.value] == id {
          slots := slots - {slot.value};
        }
      }
    }

    /** The loop every purge ends with: one event at a time, in any order. */
    method RemoveAll(ids: set<string>)
      requires Valid()
      modifies this`stored, this`slots
      ensures Valid() && View() == DropAll(old(View()), ids)
    {
      ghost var s := View();
      var left, done := ids, {};
      DropNone(s);
      while left != {}
        invariant done + left == ids
        invariant View() == DropAll(s, done)
        decreases left
      {
        var id :| id in left;
        DropOneMore(s, done, id);
        RemoveStored(id);
        left, done := left - {id}, done + {id};
      }
      DropIndex(s, ids);
    }

    method Put(e: Event, now: nat) returns (outcome: Outcome)
      requires Valid()
      requires e.id in stored ==> stored[e.id] == e
      modifies this`stored, this`slots
      ensures (View(), outcome) == PutStep(old(View()), e, now)
      ensures Valid()
    {
      ghost var s := View();
      if e.pubkey in vanished {
        return Invalid;
      }
      if e.id in deletedIds || (e.id, Lower(e.pubkey)) in absentBlocks {
        return PreviouslyDeleted;
      }
      var purged := PurgedBlocks(e);
      if purged {
        return PreviouslyDeleted;
      }
      if IsEphemeralKind(e.kind) {
        return Ephemeral;
      }
      if Expired(e, now) {
        return ExpiredEvent;
      }
      PutKeepsIndex(s, e, now);
      var slot := SlotOf(e);
      if slot.Some? {
        if slot.value in addressTombstones && e.createdAt <= addressTombstones[slot.value] {
          return PreviouslyDeleted;
        }
        if slot.value in slots {
          var cur := stored[slots[slot.value]];
          if !Newer(e, cur) {
            return Duplicate;
          }
          RemoveStored(cur.id);
          stored := stored[e.id := e];
          slots := slots[slot.value := e.id];
          return Replaced;
        }
        stored := stored[e.id := e];
        slots := slots[slot.value := e.id];
        return Stored;
      }
      if e.id in stored {
        return Duplicate;
      }
      stored := stored[e.id := e];
      return Stored;
    }

    method PurgedBlocks(e: Event) returns (blocked: bool)
      ensures blocked == Store.PurgedBlocks(View(), e)
    {
      for i := 0 to |e.tags|
        invariant forall j :: 0 <= j < i ==> !TagPurged(View(), e, e.tags[j])
      {
        var tag := e.tags[i];
        if |tag| >= 2 && (tag[0] == "h" || (IsMetaKind(e.kind) && tag[0] == "d")) && tag[1] in purgedGroups {
          var mark := purgedGroups[tag[1]];
          if (if e.kind == CREATE_GROUP then e.createdAt < mark.purgeNow else e.createdAt <= mark.cut) {
            assert TagPurged(View(), e, e.tags[i]);
            return true;
          }
        }
      }
      return false;
    }

    method PurgeExpired(now: nat) returns (removed: nat)
      requires Valid()
      modifies this`stored, this`slots
      ensures (View(), removed) == PurgeExpiredStep(old(View()), now)
      ensures Valid()
    {
      var doomed := set id | id in stored && Expired(stored[id], now);
      RemoveAll(doomed);
      removed := |doomed|;
    }

    /** A NIP-09 request: its `e` targets, then its `a` targets. */
    method Delete(requester: string, targets: seq<string>, addresses: seq<Address>, created: nat) returns (removed: nat)
      requires Valid()
      modifies this`stored, this`slots, this`deletedIds, this`absentBlocks, this`addressTombstones
      ensures (View(), removed) == DeleteStep(old(View()), requester, targets, addresses, created)
      ensures Valid()
    {
      var n := DeleteTargets(requester, targets);
      var m := DeleteAddresses(requester, addresses, created);
      removed := n + m;
    }

    method DeleteTargets(requester: string, targets: seq<string>) returns (removed: nat)
      requires Valid()
      modifies this`stored, this`slots, this`deletedIds, this`absentBlocks
      ensures (View(), removed) == TargetsStep(old(View()), requester, targets)
      ensures Valid()
    {
      removed := 0;
      for i := 0 to |targets|
        invariant Valid()
        invariant (View(), removed) == TargetsStep(old(View()), requester, targets[..i])
      {
        assert targets[..i + 1][..i] == targets[..i];
        var gone := DeleteTarget(requester, targets[i]);
        removed := removed + gone;
      }
      assert targets[..|targets|] == targets;
    }

    method DeleteTarget(requester: string, id: string) returns (removed: nat)
      requires Valid()
      modifies this`stored, this`slots, this`deletedIds, this`absentBlocks
      ensures (View(), removed) == TargetStep(old(View()), requester, id)
      ensures Valid()
    {
      if id !in stored {
        absentBlocks := absentBlocks + {(id, Lower(requester))};
        return 0;
      }
      if stored[id].kind == DELETION_KIND || !EqIgnoreCase(stored[id].pubkey, requester) {
        return 0;
      }
      RemoveKeepsIndex(View(), id);
      RemoveStored(id);
      deletedIds := deletedIds + {id};
      return 1;
    }

    method DeleteAddresses(requester: string, addresses: seq<Address>, created: nat) returns (removed: nat)
      requires Valid()
      modifies this`stored, this`slots, this`deletedIds, this`addressTombstones
      ensures (View(), removed) == AddressesStep(old(View()), requester, addresses, created)
      ensures Valid()
    {
      removed := 0;
      for i := 0 to |addresses|
        invariant Valid()
        invariant (View(), removed) == AddressesStep(old(View()), requester, addresses[..i], created)
      {
        assert addresses[..i + 1][..i] == addresses[..i];
        var gone := DeleteAddress(requester, addresses[i], created);
        removed := removed + gone;
      }
      assert addresses[..|addresses|] == addresses;
    }

    method DeleteAddress(requester: string, a: Address, created: nat) returns (removed: nat)
      requires Valid()
      modifies this`stored, this`slots, this`deletedIds, this`addressTombstones
      ensures (View(), removed) == AddressStep(old(View()), requester, a, created)
      ensures Valid()
    {
      if !EqIgnoreCase(a.pubkey, requester) {
        return 0;
      }
      var slot := AddressSlot(a);
      var cut := if slot in addressTombstones then addressTombstones[slot] else 0;
      addressTombstones := addressTombstones[slot := Max(cut, created)];
      if slot in slots {
        var id := slots[slot];
        if stored[id].createdAt <= created {
          RemoveKeepsIndex(View(), id);
          RemoveStored(id);
          deletedIds := deletedIds + {id};
          return 1;
        }
      }
      return 0;
    }

    /** NIP-29 `kind:9005`. */
    method GroupDelete(targets: seq<string>, group: string) returns (removed: nat)
      requires Valid()
      modifies this`stored, this`slots, this`deletedIds
      ensures (View(), removed) == GroupDeleteStep(old(View()), targets, group)
      ensures Valid()
    {
      removed := 0;
      for i := 0 to |targets|
        invariant Valid()
        invariant (View(), removed) == GroupDeleteStep(old(View()), targets[..i], group)
      {
        assert targets[..i + 1][..i] == targets[..i];
        var gone := GroupDeleteTarget(targets[i], group);
        removed := removed + gone;
      }
      assert targets[..|targets|] == targets;
    }

    method GroupDeleteTarget(id: string, group: string) returns (removed: nat)
      requires Valid()
      modifies this`stored, this`slots, this`deletedIds
      ensures (View(), removed) == GroupTargetStep(old(View()), id, group)
      ensures Valid()
    {
      if id !in stored || stored[id].kind == DELETION_KIND {
        return 0;
      }
      if GroupIdAny(stored[id]) != Some(group) || IsMetaKind(stored[id].kind) {
        return 0;
      }
      RemoveKeepsIndex(View(), id);
      RemoveStored(id);
      deletedIds := deletedIds + {id};
      return 1;
    }

    /** NIP-29 `kind:9008`. */
    method PurgeGroup(group: string, now: nat) returns (removed: nat)
      requires Valid()
      modifies this`stored, this`slots, this`purgedGroups
      ensures (View(), removed) == PurgeGroupStep(old(View()), group, now)
      ensures Valid()
    {
      var doomed := set id | id in stored && InGroup(stored[id], group);
      assert doomed == GroupHistory(View(), group);
      var newest := NewestCreated(doomed);
      RemoveAll(doomed);
      var prev := if group in purgedGroups then purgedGroups[group] else PurgeMark(0, 0);
      purgedGroups := purgedGroups[group := PurgeMark(Max(prev.purgeNow, now), Max(Max(prev.cut, now), newest))];
      removed := |doomed|;
    }

    method NewestCreated(ids: set<string>) returns (newest: nat)
      ensures newest == MaxCreated(stored, ids)
    {
      newest := 0;
      var left := ids;
      while left != {}
        invariant left <= ids
        invariant IsMaxCreated(stored, ids - left, newest)
      {
        var id :| id in left;
        if id in stored && stored[id].createdAt > newest {
          newest := stored[id].createdAt;
        }
        left := left - {id};
      }
      assert ids - left == ids;
      MaxCreatedUnique(stored, ids, newest);
    }

    /** NIP-62. */
    method Vanish(pubkey: string, until: nat) returns (removed: nat)
      requires Valid()
      modifies this`stored, this`slots, this`vanished
      ensures (View(), removed) == VanishStep(old(View()), pubkey, until)
      ensures Valid()
    {
      if pubkey in vanished && vanished[pubkey] >= until {
        return 0;
      }
      var effective := Max(if pubkey in vanished then vanished[pubkey] else 0, until);
      var doomed := set id | id in stored && EqIgnoreCase(stored[id].pubkey, pubkey)
        && stored[id].createdAt <= effective;
      assert doomed == AuthoredUpTo(View(), pubkey, effective);
      vanished := vanished[pubkey := effective];
      RemoveAll(doomed);
      removed := |doomed|;
    }
  }

  lemma DropNone(s: State)
    ensures DropAll(s, {}) == s
  {
    assert s.stored - {} == s.stored;
    assert DropAll(s, {}).slots == s.slots;
  }

  lemma DropTwice(s: State, ids: set<string>, id: string)
    ensures DropAll(DropAll(s, ids), {id}) == DropAll(s, ids + {id})
  {
    assert s.stored - ids - {id} == s.stored - (ids + {id});
    assert DropAll(DropAll(s, ids), {id}).slots == DropAll(s, ids + {id}).slots;
  }

  lemma DropOneMore(s: State, ids: set<string>, id: string)
    requires IndexOk(s)
    ensures Store.RemoveStored(DropAll(s, ids), id) == DropAll(s, ids + {id})
  {
    DropIndex(s, ids);
    RemoveIsDrop(DropAll(s, ids), id);
    DropTwice(s, ids, id);
  }

  lemma ReplaceKeepsIndex(s: State, e: Event)
    requires IndexOk(s) && (e.id in s.stored ==> s.stored[e.id] == e)
    requires SlotOf(e).Some? && SlotOf(e).value in s.slots
    ensures IndexOk(Insert(Store.RemoveStored(s, s.slots[SlotOf(e).value]), e))
  {
    var id := s.slots[SlotOf(e).value];
    RemoveKeepsIndex(s, id);
    var base := Store.RemoveStored(s, id);
    InsertIndex(base.stored, base.slots, e);
  }

  lemma PutKeepsIndex(s: State, e: Event, now: nat)
    requires IndexOk(s) && (e.id in s.stored ==> s.stored[e.id] == e)
    ensures IndexOk(PutStep(s, e, now).0)
  {
    PutCases(s, e, now);
    var outcome := PutStep(s, e, now).1;
    if outcome == Replaced {
      ReplaceKeepsIndex(s, e);
    } else if outcome == Stored {
      InsertIndex(s.stored, s.slots, e);
    }
  }
}
