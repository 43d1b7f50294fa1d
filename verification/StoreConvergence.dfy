/** Order independence of the store: publications converge to the newest event
    of every slot, and address deletions commute with publications. */
module StoreConvergence {
  import opened Text
  import opened Events
  import opened Store
  import opened StoreRuns

  // ----- publications converge -----

  /** Publishing a sequence of events at one time. */
  ghost function PutAll(u: string -> Event, s: State, events: seq<Event>, now: nat): (t: State)
    requires Inv(s) && Known(u, s) && forall i :: 0 <= i < |events| ==> u(events[i].id) == events[i]
    ensures Inv(t) && Known(u, t) && SameMarkers(s, t)
    decreases |events|
  {
    if events == [] then s
    else
      var t := PutAll(u, s, events[..|events| - 1], now);
      PutKeeps(u, t, events[|events| - 1], now);
      PutStep(t, events[|events| - 1], now).0
  }

  /** Whether the markers and the clock let an event in. */
  ghost predicate Admissible(s: State, e: Event, now: nat) {
    !Refuses(s, e) && !Expired(e, now)
  }

  /** What a run of publications may leave stored: what was there, and what it
      published and was let in. */
  ghost predicate Candidate(s: State, published: set<Event>, now: nat, c: Event) {
    (c.id in s.stored && s.stored[c.id] == c) || (c in published && Admissible(s, c, now))
  }

  /** The reference outcome: every plain candidate is stored, every slot of a
      candidate holds a candidate that no candidate beats, and nothing else. */
  ghost predicate IsJoin(s: State, published: set<Event>, now: nat, t: State) {
    && (forall id :: id in t.stored ==> Candidate(s, published, now, t.stored[id]))
    && (forall c :: Candidate(s, published, now, c) ==> Settled(t, c))
  }

  ghost predicate Settled(t: State, c: Event) {
    match SlotOf(c)
    case None => c.id in t.stored && t.stored[c.id] == c
    case Some(slot) => slot in t.slots && t.slots[slot] in t.stored && !Newer(c, t.stored[t.slots[slot]])
  }

  lemma NewerTransitive(a: Event, b: Event, c: Event)
    requires Newer(a, b) && !Newer(c, b)
    ensures !Newer(c, a)
  {
    if Newer(c, a) && c.createdAt == a.createdAt == b.createdAt {
      LexTransitive(c.id, a.id, b.id);
    }
  }

  lemma NewerIrreflexive(a: Event)
    ensures !Newer(a, a)
  {
    LexTotal(a.id, a.id);
  }

  /** What a publication stores, by the slot rule. */
  ghost predicate PutStores(s: State, e: Event, now: nat, t: State)
    requires IndexOk(s)
  {
    if !Admissible(s, e, now) then t.stored == s.stored
    else match SlotOf(e)
      case None => t.stored == s.stored[e.id := e]
      case Some(slot) =>
        if slot !in s.slots then t.stored == s.stored[e.id := e]
        else if Newer(e, s.stored[s.slots[slot]]) then t.stored == (s.stored - {s.slots[slot]})[e.id := e]
        else t.stored == s.stored
  }

  lemma PutStoresHolds(u: string -> Event, s: State, e: Event, now: nat)
    requires Inv(s) && Known(u, s) && u(e.id) == e
    ensures PutStores(s, e, now, PutStep(s, e, now).0)
  {
    if Admissible(s, e, now) && SlotOf(e).None? && e.id in s.stored {
      assert s.stored == s.stored[e.id := e];
    }
  }

  lemma PutKeepsSettled(s: State, e: Event, now: nat, t: State, c: Event)
    requires IndexOk(s) && IndexOk(t) && PutStores(s, e, now, t) && Settled(s, c)
    requires e.id in s.stored ==> s.stored[e.id] == e
    ensures Settled(t, c)
  {
    if SlotOf(c).Some? {
      var w := s.stored[s.slots[SlotOf(c).value]];
      if w.id in t.stored {
        assert t.stored[w.id] == w;
      } else {
        assert SlotOf(e) == SlotOf(c) && t.stored[e.id] == e;
        NewerTransitive(e, w, c);
      }
    }
  }

  lemma PutSettlesOwn(s: State, e: Event, now: nat, t: State)
    requires IndexOk(s) && IndexOk(t) && PutStores(s, e, now, t) && Admissible(s, e, now)
    ensures Settled(t, e)
  {
    NewerIrreflexive(e);
    if SlotOf(e).Some? && e.id in t.stored && t.stored[e.id] == e {
      assert t.slots[SlotOf(e).value] == e.id;
    }
  }

  lemma AdmissibleByMarkers(s: State, t: State, e: Event, now: nat)
    requires SameMarkers(s, t)
    ensures Admissible(s, e, now) == Admissible(t, e, now)
  {
    BarredByMarkers(s, t, e);
  }

  lemma JoinSettles(s: State, published: set<Event>, now: nat, t: State, e: Event, r: State, c: Event)
    requires IndexOk(t) && IndexOk(r) && PutStores(t, e, now, r) && (e.id in t.stored ==> t.stored[e.id] == e)
    requires Admissible(s, e, now) == Admissible(t, e, now)
    requires IsJoin(s, published, now, t) && Candidate(s, published + {e}, now, c)
    ensures Settled(r, c)
  {
    if Candidate(s, published, now, c) {
      PutKeepsSettled(t, e, now, r, c);
    } else {
      PutSettlesOwn(t, e, now, r);
    }
  }

  lemma JoinStores(s: State, published: set<Event>, now: nat, t: State, e: Event, r: State, id: string)
    requires IndexOk(t) && PutStores(t, e, now, r) && Admissible(s, e, now) == Admissible(t, e, now)
    requires IsJoin(s, published, now, t) && id in r.stored
    ensures Candidate(s, published + {e}, now, r.stored[id])
  {
    assert (id in t.stored && r.stored[id] == t.stored[id]) || (Admissible(s, e, now) && r.stored[id] == e);
  }

  lemma JoinStep(u: string -> Event, s: State, published: set<Event>, now: nat, t: State, e: Event)
    requires Inv(t) && Known(u, t) && SameMarkers(s, t) && u(e.id) == e
    requires IsJoin(s, published, now, t)
    ensures IsJoin(s, published + {e}, now, PutStep(t, e, now).0)
  {
    PutKeeps(u, t, e, now);
    PutStoresHolds(u, t, e, now);
    var r := PutStep(t, e, now).0;
    AdmissibleByMarkers(s, t, e, now);
    forall c | Candidate(s, published + {e}, now, c) ensures Settled(r, c) {
      JoinSettles(s, published, now, t, e, r, c);
    }
    forall id | id in r.stored ensures Candidate(s, published + {e}, now, r.stored[id]) {
      JoinStores(s, published, now, t, e, r, id);
    }
  }

  lemma {:induction false} PutAllIsJoin(u: string -> Event, s: State, events: seq<Event>, now: nat)
    requires Inv(s) && Known(u, s) && forall i :: 0 <= i < |events| ==> u(events[i].id) == events[i]
    ensures IsJoin(s, Elements(events), now, PutAll(u, s, events, now))
    decreases |events|
  {
    if events == [] {
      forall c | Candidate(s, Elements(events), now, c) ensures Settled(s, c) {
        NewerIrreflexive(c);
      }
    } else {
      var prefix, e := events[..|events| - 1], events[|events| - 1];
      PutAllIsJoin(u, s, prefix, now);
      assert events == prefix + [e];
      assert Elements(events) == Elements(prefix) + {e};
      JoinStep(u, s, Elements(prefix), now, PutAll(u, s, prefix, now), e);
    }
  }

  lemma JoinKeepsStored(u: string -> Event, s: State, published: set<Event>, now: nat, a: State, b: State, id: string)
    requires IsJoin(s, published, now, a) && IsJoin(s, published, now, b)
    requires IndexOk(a) && IndexOk(b) && Known(u, a) && Known(u, b)
    requires id in a.stored
    ensures id in b.stored && b.stored[id] == a.stored[id]
  {
    var c := a.stored[id];
    assert Settled(b, c);
    if SlotOf(c).Some? {
      var d := b.stored[b.slots[SlotOf(c).value]];
      assert Settled(a, d);
      LexTotal(c.id, d.id);
    }
  }

  lemma IndexDetermined(stored: map<string, Event>, a: map<Slot, string>, b: map<Slot, string>)
    requires IndexAgrees(stored, a) && IndexAgrees(stored, b)
    ensures a == b
  {
    forall slot | slot in a ensures slot in b && b[slot] == a[slot] {
      assert SlotOf(stored[a[slot]]) == Some(slot);
    }
    forall slot | slot in b ensures slot in a {
      assert SlotOf(stored[b[slot]]) == Some(slot);
    }
  }

  /** The reference outcome is unique. */
  lemma JoinUnique(u: string -> Event, s: State, published: set<Event>, now: nat, a: State, b: State)
    requires IsJoin(s, published, now, a) && IsJoin(s, published, now, b)
    requires IndexOk(a) && IndexOk(b) && Known(u, a) && Known(u, b)
    ensures a.stored == b.stored && a.slots == b.slots
  {
    forall id | id in a.stored ensures id in b.stored && b.stored[id] == a.stored[id] {
      JoinKeepsStored(u, s, published, now, a, b, id);
    }
    forall id | id in b.stored ensures id in a.stored {
      JoinKeepsStored(u, s, published, now, b, a, id);
    }
    assert a.stored == b.stored;
    IndexDetermined(a.stored, a.slots, b.slots);
  }

  /** Publication converges: from any state, two sequences that publish the
      same events, in whatever order and however often, store the same events
      in the same slots. */
  lemma PublicationConverges(u: string -> Event, s: State, a: seq<Event>, b: seq<Event>, now: nat)
    requires Inv(s) && Known(u, s)
    requires forall i :: 0 <= i < |a| ==> u(a[i].id) == a[i]
    requires forall i :: 0 <= i < |b| ==> u(b[i].id) == b[i]
    requires Elements(a) == Elements(b)
    ensures PutAll(u, s, a, now) == PutAll(u, s, b, now)
  {
    PutAllIsJoin(u, s, a, now);
    PutAllIsJoin(u, s, b, now);
    JoinUnique(u, s, Elements(a), now, PutAll(u, s, a, now), PutAll(u, s, b, now));
  }

  /** The slot of every admitted event ends up with an admitted or earlier
      event that is at least as new, lowest id on ties. */
  lemma SlotHoldsTheNewest(u: string -> Event, s: State, events: seq<Event>, now: nat, e: Event)
    requires Inv(s) && Known(u, s) && forall i :: 0 <= i < |events| ==> u(events[i].id) == events[i]
    requires e in events && Admissible(s, e, now) && SlotOf(e).Some?
    ensures
      var t := PutAll(u, s, events, now);
      && SlotOf(e).value in t.slots
      && var w := t.stored[t.slots[SlotOf(e).value]];
         && (w.createdAt > e.createdAt || (w.createdAt == e.createdAt && (w == e || LexLess(w.id, e.id))))
         && Candidate(s, Elements(events), now, w)
  {
    PutAllIsJoin(u, s, events, now);
    var t := PutAll(u, s, events, now);
    assert Candidate(s, Elements(events), now, e);
    assert Settled(t, e);
    var w := t.stored[t.slots[SlotOf(e).value]];
    LexTotal(w.id, e.id);
  }

  // ----- address deletion commutes with publication -----

  predicate Hit(requester: string, addresses: seq<Address>, slot: Slot) {
    exists i :: 0 <= i < |addresses| && EqIgnoreCase(addresses[i].pubkey, requester)
      && AddressSlot(addresses[i]) == slot
  }

  predicate Cuts(requester: string, addresses: seq<Address>, created: nat, e: Event) {
    SlotOf(e).Some? && Hit(requester, addresses, SlotOf(e).value) && e.createdAt <= created
  }

  /** What a request of `a` targets does, as one formula: exactly the current
      versions it reaches go, exactly those become tombstones, and exactly the
      versions up to the request are blocked at the addresses it names. */
  ghost predicate CutState(s: State, requester: string, addresses: seq<Address>, created: nat, t: State) {
    && (forall id :: id in t.stored <==> id in s.stored && !Cuts(requester, addresses, created, s.stored[id]))
    && (forall id :: id in t.stored ==> t.stored[id] == s.stored[id])
    && (forall id :: id in t.deletedIds <==>
          id in s.deletedIds || (id in s.stored && Cuts(requester, addresses, created, s.stored[id])))
    && CutMarks(s, requester, addresses, created, t)
    && t == s.(stored := t.stored, slots := t.slots, deletedIds := t.deletedIds,
               addressTombstones := t.addressTombstones)
  }

  ghost predicate CutMarks(s: State, requester: string, addresses: seq<Address>, created: nat, t: State) {
    forall slot, c: nat :: AddressBlocked(t, slot, c) <==>
      AddressBlocked(s, slot, c) || (Hit(requester, addresses, slot) && c <= created)
  }

  lemma HitSnoc(requester: string, addresses: seq<Address>, a: Address, slot: Slot)
    ensures Hit(requester, addresses + [a], slot) <==>
      Hit(requester, addresses, slot) || (EqIgnoreCase(a.pubkey, requester) && AddressSlot(a) == slot)
  {
    var all := addresses + [a];
    if Hit(requester, addresses, slot) {
      var i :| 0 <= i < |addresses| && EqIgnoreCase(addresses[i].pubkey, requester)
        && AddressSlot(addresses[i]) == slot;
      assert all[i] == addresses[i];
    }
    assert all[|addresses|] == a;
  }

  lemma HitOne(requester: string, a: Address, slot: Slot)
    ensures Hit(requester, [a], slot) <==> EqIgnoreCase(a.pubkey, requester) && AddressSlot(a) == slot
  {
    assert [] + [a] == [a];
    HitSnoc(requester, [], a, slot);
  }

  lemma AddressMarks(s: State, requester: string, a: Address, created: nat)
    ensures CutMarks(s, requester, [a], created, AddressStep(s, requester, a, created).0)
  {
    var t := AddressStep(s, requester, a, created).0;
    forall slot, c: nat
      ensures AddressBlocked(t, slot, c) <==> AddressBlocked(s, slot, c) || (Hit(requester, [a], slot) && c <= created)
    {
      HitOne(requester, a, slot);
    }
  }

  /** The current version of the named address goes exactly when it is not newer. */
  lemma AddressRemoves(s: State, requester: string, a: Address, created: nat)
    requires IndexOk(s)
    ensures
      var t := AddressStep(s, requester, a, created).0;
      var gone := set id | id in s.stored && Cuts(requester, [a], created, s.stored[id]);
      t.stored == s.stored - gone && t.deletedIds == s.deletedIds + gone
  {
    var t := AddressStep(s, requester, a, created).0;
    var gone := set id | id in s.stored && Cuts(requester, [a], created, s.stored[id]);
    var slot := AddressSlot(a);
    forall id | id in s.stored && SlotOf(s.stored[id]).Some?
      ensures Hit(requester, [a], SlotOf(s.stored[id]).value) <==>
        EqIgnoreCase(a.pubkey, requester) && slot in s.slots && id == s.slots[slot]
    {
      HitOne(requester, a, SlotOf(s.stored[id]).value);
    }
    if EqIgnoreCase(a.pubkey, requester) && slot in s.slots && s.stored[s.slots[slot]].createdAt <= created {
      assert gone == {s.slots[slot]};
    } else {
      assert gone == {};
    }
  }

  lemma AddressCuts(s: State, requester: string, a: Address, created: nat)
    requires IndexOk(s)
    ensures CutState(s, requester, [a], created, AddressStep(s, requester, a, created).0)
  {
    AddressMarks(s, requester, a, created);
    AddressRemoves(s, requester, a, created);
  }

  lemma {:induction false} AddressesCut(
    u: string -> Event, s: State, requester: string, addresses: seq<Address>, created: nat)
    requires Inv(s) && Known(u, s)
    ensures CutState(s, requester, addresses, created, AddressesStep(s, requester, addresses, created).0)
    decreases |addresses|
  {
    if addresses != [] {
      var prefix, a := addresses[..|addresses| - 1], addresses[|addresses| - 1];
      AddressesCut(u, s, requester, prefix, created);
      AddressesKeep(u, s, requester, prefix, created);
      var t := AddressesStep(s, requester, prefix, created).0;
      AddressCuts(t, requester, a, created);
      assert addresses == prefix + [a];
      forall slot
        ensures Hit(requester, addresses, slot) <==> Hit(requester, prefix, slot) || Hit(requester, [a], slot)
      {
        HitSnoc(requester, prefix, a, slot);
        HitOne(requester, a, slot);
      }
    }
  }

  /** Address deletion and publication commute on what is stored: whether the
      version or the request naming its address comes first does not matter. */
  lemma AddressDeletionCommutes(
    u: string -> Event, s: State, e: Event, now: nat, requester: string, addresses: seq<Address>, created: nat)
    requires Inv(s) && Known(u, s) && u(e.id) == e
    ensures
      var putFirst := DeleteStep(PutStep(s, e, now).0, requester, [], addresses, created).0;
      var deleted := DeleteStep(s, requester, [], addresses, created).0;
      Inv(deleted) && Inv(putFirst) &&
      var deleteFirst := PutStep(deleted, e, now).0;
      putFirst.stored == deleteFirst.stored && putFirst.slots == deleteFirst.slots
  {
    var p := PutStep(s, e, now).0;
    PutKeeps(u, s, e, now);
    var pd := AddressesStep(p, requester, addresses, created).0;
    var d := AddressesStep(s, requester, addresses, created).0;
    AddressesKeep(u, p, requester, addresses, created);
    AddressesKeep(u, s, requester, addresses, created);
    PutKeeps(u, d, e, now);
    AddressesCut(u, s, requester, addresses, created);
    AddressesCut(u, p, requester, addresses, created);
    PutStoresHolds(u, s, e, now);
    PutStoresHolds(u, d, e, now);
    CommuteStored(u, s, e, now, requester, addresses, created, p, pd, d, PutStep(d, e, now).0);
    IndexDetermined(pd.stored, pd.slots, PutStep(d, e, now).0.slots);
  }

  lemma AdmissibleAfterCut(
    u: string -> Event, s: State, e: Event, now: nat, requester: string, addresses: seq<Address>, created: nat,
    d: State)
    requires Inv(s) && Known(u, s) && u(e.id) == e
    requires CutState(s, requester, addresses, created, d)
    ensures Admissible(d, e, now) <==> Admissible(s, e, now) && !Cuts(requester, addresses, created, e)
  {
    assert forall i :: 0 <= i < |e.tags| ==> TagPurged(s, e, e.tags[i]) == TagPurged(d, e, e.tags[i]);
  }

  /** A request leaves a slot filled exactly when its current version is newer. */
  lemma SlotAfterCut(s: State, requester: string, addresses: seq<Address>, created: nat, d: State, slot: Slot)
    requires IndexOk(s) && IndexOk(d) && CutState(s, requester, addresses, created, d)
    ensures slot in d.slots <==> slot in s.slots && !Cuts(requester, addresses, created, s.stored[s.slots[slot]])
    ensures slot in d.slots ==> d.slots[slot] == s.slots[slot]
  {
    if slot in s.slots && s.slots[slot] in d.stored {
      assert SlotOf(d.stored[s.slots[slot]]) == Some(slot);
    }
  }

  /** An event a request reaches leaves no older version of its slot unreached. */
  lemma OlderIsCut(requester: string, addresses: seq<Address>, created: nat, e: Event, cur: Event)
    requires SlotOf(e).Some? && SlotOf(cur) == SlotOf(e)
    ensures Newer(e, cur) && Cuts(requester, addresses, created, e) ==> Cuts(requester, addresses, created, cur)
    ensures !Newer(e, cur) && Cuts(requester, addresses, created, cur) ==> Cuts(requester, addresses, created, e)
  {
  }

  /** What publishing over a filled slot stores once the request came first. */
  lemma SlottedOutcome(
    s: State, e: Event, now: nat, requester: string, addresses: seq<Address>, created: nat, d: State, dp: State)
    requires IndexOk(s) && IndexOk(d) && SlotOf(e).Some? && SlotOf(e).value in s.slots
    requires Admissible(d, e, now) <==> !Cuts(requester, addresses, created, e)
    requires PutStores(d, e, now, dp) && CutState(s, requester, addresses, created, d)
    ensures
      var was := s.slots[SlotOf(e).value];
      dp.stored == if Newer(e, s.stored[was]) && !Cuts(requester, addresses, created, e)
                   then (d.stored - {was})[e.id := e] else d.stored
  {
    var slot := SlotOf(e).value;
    var was := s.slots[slot];
    SlotAfterCut(s, requester, addresses, created, d, slot);
    OlderIsCut(requester, addresses, created, e, s.stored[was]);
    if was !in d.stored {
      assert d.stored - {was} == d.stored;
    }
  }

  ghost predicate LeftBy(stored: map<string, Event>, reach: Event -> bool, left: map<string, Event>) {
    && (forall k :: k in left <==> k in stored && !reach(stored[k]))
    && (forall k :: k in left ==> left[k] == stored[k])
  }

  /** Storing an event the request does not reach, before or after it. */
  lemma InsertAround(
    stored: map<string, Event>, left: map<string, Event>, gone: set<string>, e: Event, reach: Event -> bool, id: string)
    requires LeftBy(stored, reach, left) && !reach(e)
    ensures
      var p := (stored - gone)[e.id := e];
      (id in p && !reach(p[id])) <==> id in (left - gone)[e.id := e]
  {
  }

  /** Replacing a version by one the request reaches, before it. */
  lemma ReplaceBefore(
    stored: map<string, Event>, left: map<string, Event>, was: string, e: Event, reach: Event -> bool, id: string)
    requires LeftBy(stored, reach, left) && reach(e) && (e.id in stored ==> stored[e.id] == e)
    requires was in stored && reach(stored[was])
    ensures
      var p := (stored - {was})[e.id := e];
      (id in p && !reach(p[id])) <==> id in left
  {
  }

  lemma CutLeaves(s: State, requester: string, addresses: seq<Address>, created: nat, d: State)
    requires CutState(s, requester, addresses, created, d)
    ensures LeftBy(s.stored, x => Cuts(requester, addresses, created, x), d.stored)
  {
  }

  lemma CommuteFilled(s: State, e: Event, now: nat, requester: string, addresses: seq<Address>, created: nat,
                      p: State, d: State, dp: State, id: string)
    requires IndexOk(s) && IndexOk(d) && SlotOf(e).Some? && Admissible(s, e, now) && SlotOf(e).value in s.slots
    requires e.id in s.stored ==> s.stored[e.id] == e
    requires Admissible(d, e, now) <==> !Cuts(requester, addresses, created, e)
    requires PutStores(s, e, now, p) && PutStores(d, e, now, dp)
    requires CutState(s, requester, addresses, created, d)
    ensures (id in p.stored && !Cuts(requester, addresses, created, p.stored[id])) <==> id in dp.stored
  {
    var was := s.slots[SlotOf(e).value];
    var cur := s.stored[was];
    var reach := x => Cuts(requester, addresses, created, x);
    SlottedOutcome(s, e, now, requester, addresses, created, d, dp);
    CutLeaves(s, requester, addresses, created, d);
    if Newer(e, cur) {
      if reach(e) {
        OlderIsCut(requester, addresses, created, e, cur);
        ReplaceBefore(s.stored, d.stored, was, e, reach, id);
      } else {
        InsertAround(s.stored, d.stored, {was}, e, reach, id);
      }
    }
  }

  lemma CommuteEmpty(s: State, e: Event, now: nat, requester: string, addresses: seq<Address>, created: nat,
                     p: State, d: State, dp: State, id: string)
    requires IndexOk(s) && IndexOk(d) && SlotOf(e).Some? && Admissible(s, e, now) && SlotOf(e).value !in s.slots
    requires e.id in s.stored ==> s.stored[e.id] == e
    requires Admissible(d, e, now) <==> !Cuts(requester, addresses, created, e)
    requires PutStores(s, e, now, p) && PutStores(d, e, now, dp)
    requires CutState(s, requester, addresses, created, d)
    ensures (id in p.stored && !Cuts(requester, addresses, created, p.stored[id])) <==> id in dp.stored
  {
    var reach := x => Cuts(requester, addresses, created, x);
    SlotAfterCut(s, requester, addresses, created, d, SlotOf(e).value);
    CutLeaves(s, requester, addresses, created, d);
    if !reach(e) {
      assert s.stored - {} == s.stored && d.stored - {} == d.stored;
      InsertAround(s.stored, d.stored, {}, e, reach, id);
    }
  }

  lemma CommutePlain(s: State, e: Event, now: nat, requester: string, addresses: seq<Address>, created: nat,
                     p: State, d: State, dp: State, id: string)
    requires IndexOk(s) && IndexOk(d) && (SlotOf(e).None? || !Admissible(s, e, now))
    requires Admissible(d, e, now) <==> Admissible(s, e, now) && !Cuts(requester, addresses, created, e)
    requires PutStores(s, e, now, p) && PutStores(d, e, now, dp)
    requires CutState(s, requester, addresses, created, d)
    ensures (id in p.stored && !Cuts(requester, addresses, created, p.stored[id])) <==> id in dp.stored
  {
  }

  lemma CommuteAt(s: State, e: Event, now: nat, requester: string, addresses: seq<Address>, created: nat,
                  p: State, d: State, dp: State, id: string)
    requires IndexOk(s) && IndexOk(d) && (e.id in s.stored ==> s.stored[e.id] == e)
    requires Admissible(d, e, now) <==> Admissible(s, e, now) && !Cuts(requester, addresses, created, e)
    requires PutStores(s, e, now, p) && PutStores(d, e, now, dp)
    requires CutState(s, requester, addresses, created, d)
    ensures (id in p.stored && !Cuts(requester, addresses, created, p.stored[id])) <==> id in dp.stored
  {
    if SlotOf(e).None? || !Admissible(s, e, now) {
      CommutePlain(s, e, now, requester, addresses, created, p, d, dp, id);
    } else if SlotOf(e).value in s.slots {
      CommuteFilled(s, e, now, requester, addresses, created, p, d, dp, id);
    } else {
      CommuteEmpty(s, e, now, requester, addresses, created, p, d, dp, id);
    }
  }

  lemma SameStored(u: string -> Event, a: State, b: State)
    requires Known(u, a) && Known(u, b) && forall id :: id in a.stored <==> id in b.stored
    ensures a.stored == b.stored
  {
  }

  lemma CommuteStored(
    u: string -> Event, s: State, e: Event, now: nat, requester: string, addresses: seq<Address>, created: nat,
                      p: State, pd: State, d: State, dp: State)
    requires Inv(s) && Known(u, s) && u(e.id) == e
    requires IndexOk(d) && Known(u, pd) && Known(u, dp)
    requires PutStores(s, e, now, p) && CutState(p, requester, addresses, created, pd)
    requires CutState(s, requester, addresses, created, d) && PutStores(d, e, now, dp)
    ensures pd.stored == dp.stored
  {
    AdmissibleAfterCut(u, s, e, now, requester, addresses, created, d);
    forall id ensures id in pd.stored <==> id in dp.stored {
      CommuteAt(s, e, now, requester, addresses, created, p, d, dp, id);
    }
    SameStored(u, pd, dp);
  }
}
