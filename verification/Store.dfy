/** The relay's derived storage state and what each operation does to it.
    `State` is the value of the store; `StoreModel.Model` holds it
    in mutable fields and is proved to follow these step functions. */
module Store {
  import opened Text
  import opened Events

  /** The replaceable slot of an event; `d` is empty for non-addressable kinds. */
  datatype Slot = Slot(kind: nat, pubkey: string, d: string)

  /** An `a`-tag target of a NIP-09 deletion request. */
  datatype Address = Address(kind: nat, pubkey: string, d: string)

  datatype Outcome = Stored | Duplicate | Replaced | ExpiredEvent | PreviouslyDeleted | Ephemeral | Invalid

  datatype PurgeMark = PurgeMark(purgeNow: nat, cut: nat)

  datatype State = State(
    stored: map<string, Event>,
    slots: map<Slot, string>,
    deletedIds: set<string>,
    absentBlocks: set<(string, string)>,
    addressTombstones: map<Slot, nat>,
    vanished: map<string, nat>,
    purgedGroups: map<string, PurgeMark>)

  const EMPTY := State(map[], map[], {}, {}, map[], map[], map[])

  function Max(a: nat, b: nat): nat { if a < b then b else a }

  function SlotOf(e: Event): Option<Slot> {
    if IsAddressableKind(e.kind) then
      var d := FirstTagValue(e.tags, "d");
      Some(Slot(e.kind, e.pubkey, if d.Some? then d.value else ""))
    else if IsReplaceableKind(e.kind) then Some(Slot(e.kind, e.pubkey, ""))
    else None
  }

  /** NIP-01: the later event wins a slot, the lower id wins a tie. */
  predicate Newer(a: Event, b: Event) {
    a.createdAt > b.createdAt || (a.createdAt == b.createdAt && LexLess(a.id, b.id))
  }

  predicate AddressBlocked(s: State, slot: Slot, createdAt: nat) {
    slot in s.addressTombstones && createdAt <= s.addressTombstones[slot]
  }

  /** Whether one tag ties the event to a purged group's removed history. */
  predicate TagPurged(s: State, e: Event, tag: seq<string>) {
    |tag| >= 2
    && (tag[0] == "h" || (IsMetaKind(e.kind) && tag[0] == "d"))
    && tag[1] in s.purgedGroups
    && (if e.kind == CREATE_GROUP then e.createdAt < s.purgedGroups[tag[1]].purgeNow
        else e.createdAt <= s.purgedGroups[tag[1]].cut)
  }

  predicate PurgedBlocks(s: State, e: Event) {
    exists i :: 0 <= i < |e.tags| && TagPurged(s, e, e.tags[i])
  }

  predicate DeletedBlocks(s: State, e: Event) {
    e.id in s.deletedIds || (e.id, Lower(e.pubkey)) in s.absentBlocks
  }

  // ----- put -----

  /** Removes one event together with the slot that points at it. */
  function RemoveStored(s: State, id: string): State {
    if id in s.stored then
      var slot := SlotOf(s.stored[id]);
      s.(stored := s.stored - {id},
         slots := if slot.Some? && slot.value in s.slots && s.slots[slot.value] == id
                  then s.slots - {slot.value} else s.slots)
    else s
  }

  function Insert(s: State, e: Event): State {
    var slot := SlotOf(e);
    s.(stored := s.stored[e.id := e],
       slots := if slot.Some? then s.slots[slot.value := e.id] else s.slots)
  }

  /** Publishes an event, in the store's own check order. */
  function PutStep(s: State, e: Event, now: nat): (State, Outcome)
    requires IndexOk(s)
  {
    if e.pubkey in s.vanished then (s, Invalid)
    else if DeletedBlocks(s, e) then (s, PreviouslyDeleted)
    else if PurgedBlocks(s, e) then (s, PreviouslyDeleted)
    else if IsEphemeralKind(e.kind) then (s, Ephemeral)
    else if Expired(e, now) then (s, ExpiredEvent)
    else
      var slot := SlotOf(e);
      if slot.Some? then
        if AddressBlocked(s, slot.value, e.createdAt) then (s, PreviouslyDeleted)
        else if slot.value in s.slots then
          var cur := s.stored[s.slots[slot.value]];
          if !Newer(e, cur) then (s, Duplicate)
          else (Insert(RemoveStored(s, cur.id), e), Replaced)
        else (Insert(s, e), Stored)
      else if e.id in s.stored then (s, Duplicate)
      else (Insert(s, e), Stored)
  }

  // ----- removals -----

  function SlotsLeft(slots: map<Slot, string>, doomed: set<string>): map<Slot, string> {
    map slot | slot in slots && slots[slot] !in doomed :: slots[slot]
  }

  /** The store without the events of `doomed`, and without their slots. */
  function DropAll(s: State, doomed: set<string>): State {
    s.(stored := s.stored - doomed, slots := SlotsLeft(s.slots, doomed))
  }

  function ExpiredIds(s: State, now: nat): set<string> {
    set id | id in s.stored && Expired(s.stored[id], now)
  }

  function PurgeExpiredStep(s: State, now: nat): (State, nat) {
    (DropAll(s, ExpiredIds(s, now)), |ExpiredIds(s, now)|)
  }

  function Delete(s: State, id: string): State {
    RemoveStored(s, id).(deletedIds := s.deletedIds + {id})
  }

  /** One `e` target of a NIP-09 request. */
  function TargetStep(s: State, requester: string, id: string): (State, nat) {
    if id !in s.stored then (s.(absentBlocks := s.absentBlocks + {(id, Lower(requester))}), 0)
    else if s.stored[id].kind == DELETION_KIND then (s, 0)
    else if !EqIgnoreCase(s.stored[id].pubkey, requester) then (s, 0)
    else (Delete(s, id), 1)
  }

  function TargetsStep(s: State, requester: string, targets: seq<string>): (State, nat)
    decreases |targets|
  {
    if targets == [] then (s, 0)
    else
      var (t, n) := TargetsStep(s, requester, targets[..|targets| - 1]);
      var (u, m) := TargetStep(t, requester, targets[|targets| - 1]);
      (u, n + m)
  }

  function AddressSlot(a: Address): Slot { Slot(a.kind, a.pubkey, a.d) }

  /** One `a` target: the cut moves up, and a current version at or below the
      request's own timestamp goes. */
  function AddressStep(s: State, requester: string, a: Address, created: nat): (State, nat) {
    if !EqIgnoreCase(a.pubkey, requester) then (s, 0)
    else
      var slot := AddressSlot(a);
      var prev := if slot in s.addressTombstones then s.addressTombstones[slot] else 0;
      var t := s.(addressTombstones := s.addressTombstones[slot := Max(prev, created)]);
      if slot in t.slots
         && (if t.slots[slot] in t.stored then t.stored[t.slots[slot]].createdAt else U64_MAX) <= created
      then (Delete(t, t.slots[slot]), 1)
      else (t, 0)
  }

  function AddressesStep(s: State, requester: string, addresses: seq<Address>, created: nat): (State, nat)
    decreases |addresses|
  {
    if addresses == [] then (s, 0)
    else
      var (t, n) := AddressesStep(s, requester, addresses[..|addresses| - 1], created);
      var (u, m) := AddressStep(t, requester, addresses[|addresses| - 1], created);
      (u, n + m)
  }

  /** A NIP-09 deletion request. */
  function DeleteStep(
    s: State, requester: string, targets: seq<string>, addresses: seq<Address>, created: nat): (State, nat) {
    var (t, n) := TargetsStep(s, requester, targets);
    var (u, m) := AddressesStep(t, requester, addresses, created);
    (u, n + m)
  }

  /** One target of a NIP-29 `kind:9005`. */
  function GroupTargetStep(s: State, id: string, group: string): (State, nat) {
    if id !in s.stored then (s, 0)
    else if s.stored[id].kind == DELETION_KIND then (s, 0)
    else if GroupIdAny(s.stored[id]) != Some(group) then (s, 0)
    else if IsMetaKind(s.stored[id].kind) then (s, 0)
    else (Delete(s, id), 1)
  }

  function GroupDeleteStep(s: State, targets: seq<string>, group: string): (State, nat)
    decreases |targets|
  {
    if targets == [] then (s, 0)
    else
      var (t, n) := GroupDeleteStep(s, targets[..|targets| - 1], group);
      var (u, m) := GroupTargetStep(t, targets[|targets| - 1], group);
      (u, n + m)
  }

  function GroupHistory(s: State, group: string): set<string> {
    set id | id in s.stored && InGroup(s.stored[id], group)
  }

  /** The newest `created_at` among some stored events, 0 for none. */
  ghost predicate IsMaxCreated(stored: map<string, Event>, ids: set<string>, m: nat) {
    && (forall id :: id in ids && id in stored ==> stored[id].createdAt <= m)
    && (m == 0 || exists id :: id in ids && id in stored && stored[id].createdAt == m)
  }

  ghost function MaxCreated(stored: map<string, Event>, ids: set<string>): (m: nat)
    ensures IsMaxCreated(stored, ids, m)
  {
    if ids == {} then 0
    else
      var id :| id in ids;
      var rest := MaxCreated(stored, ids - {id});
      if id in stored then Max(stored[id].createdAt, rest) else rest
  }

  lemma MaxCreatedUnique(stored: map<string, Event>, ids: set<string>, m: nat)
    requires IsMaxCreated(stored, ids, m)
    ensures m == MaxCreated(stored, ids)
  {
  }

  /** A NIP-29 `kind:9008`. */
  ghost function PurgeGroupStep(s: State, group: string, now: nat): (State, nat) {
    var doomed := GroupHistory(s, group);
    var prev := if group in s.purgedGroups then s.purgedGroups[group] else PurgeMark(0, 0);
    var mark := PurgeMark(Max(prev.purgeNow, now), Max(Max(prev.cut, now), MaxCreated(s.stored, doomed)));
    (DropAll(s, doomed).(purgedGroups := s.purgedGroups[group := mark]), |doomed|)
  }

  function VanishMark(s: State, pubkey: string, until: nat): nat {
    Max(if pubkey in s.vanished then s.vanished[pubkey] else 0, until)
  }

  function AuthoredUpTo(s: State, pubkey: string, cut: nat): set<string> {
    set id | id in s.stored && EqIgnoreCase(s.stored[id].pubkey, pubkey) && s.stored[id].createdAt <= cut
  }

  /** A NIP-62 request to vanish. */
  function VanishStep(s: State, pubkey: string, until: nat): (State, nat) {
    if pubkey in s.vanished && s.vanished[pubkey] >= until then (s, 0)
    else
      var mark := VanishMark(s, pubkey, until);
      var doomed := AuthoredUpTo(s, pubkey, mark);
      (DropAll(s, doomed).(vanished := s.vanished[pubkey := mark]), |doomed|)
  }

  // ----- the invariant -----

  /** The id index and the slot index agree with what is stored: a slot is
      filled exactly when a stored event occupies it, and by that event only. */
  ghost predicate IndexAgrees(stored: map<string, Event>, slots: map<Slot, string>) {
    && (forall id :: id in stored ==> stored[id].id == id)
    && (forall slot :: slot in slots ==> slots[slot] in stored && SlotOf(stored[slots[slot]]) == Some(slot))
    && (forall id :: id in stored && SlotOf(stored[id]).Some? ==>
          SlotOf(stored[id]).value in slots && slots[SlotOf(stored[id]).value] == id)
  }

  ghost predicate IndexOk(s: State) {
    IndexAgrees(s.stored, s.slots)
  }

  /** The permanent refusals: what must never be found in the store. */
  ghost predicate Barred(s: State, e: Event) {
    || DeletedBlocks(s, e)
    || PurgedBlocks(s, e)
    || IsEphemeralKind(e.kind)
    || (SlotOf(e).Some? && AddressBlocked(s, SlotOf(e).value, e.createdAt))
    || (e.pubkey in s.vanished && e.createdAt <= s.vanished[e.pubkey])
  }

  ghost predicate Clean(s: State) {
    forall id :: id in s.stored ==> !Barred(s, s.stored[id])
  }

  ghost predicate Inv(s: State) {
    IndexOk(s) && Clean(s)
  }
}
