/** Accept-layer connection accounting: a slot's release is handed over from the
    accept task to a WebSocket task. Each atomic operation is one step, and steps
    of any number of connections interleave in any order. */
module Conn {
  import opened Text

  type Ip = nat

  const USIZE_MAX: nat := 0xFFFF_FFFF_FFFF_FFFF

  // ----- the per-IP counter -----

  function CountOf(counts: map<Ip, nat>, ip: Ip): nat {
    if ip in counts then counts[ip] else 0
  }

  /** Reserves a slot for `ip` under the cap; a cap of 0 is no cap. */
  function TryAcquire(counts: map<Ip, nat>, ip: Ip, max: nat): (map<Ip, nat>, bool) {
    if max == 0 then (counts, true)
    else if CountOf(counts, ip) >= max then (counts[ip := CountOf(counts, ip)], false)
    else (counts[ip := CountOf(counts, ip) + 1], true)
  }

  function ReleaseIp(counts: map<Ip, nat>, ip: Ip): map<Ip, nat> {
    if ip in counts then
      var left := if counts[ip] == 0 then 0 else counts[ip] - 1;
      if left == 0 then counts - {ip} else counts[ip := left]
    else counts
  }

  class IpConnCounter {
    var counts: map<Ip, nat>

    constructor ()
      ensures counts == map[]
    {
      counts := map[];
    }

    method Acquire(ip: Ip, max: nat) returns (ok: bool)
      modifies this
      ensures (counts, ok) == TryAcquire(old(counts), ip, max)
    {
      if max == 0 {
        return true;
      }
      if ip !in counts {
        counts := counts[ip := 0];
      }
      if counts[ip] >= max {
        assert counts == old(counts)[ip := CountOf(old(counts), ip)];
        return false;
      }
      counts := counts[ip := counts[ip] + 1];
      assert counts == old(counts)[ip := CountOf(old(counts), ip) + 1];
      return true;
    }

    method Release(ip: Ip)
      modifies this
      ensures counts == ReleaseIp(old(counts), ip)
    {
      if ip in counts {
        var left := if counts[ip] == 0 then 0 else counts[ip] - 1;
        counts := counts[ip := left];
        if left == 0 {
          counts := counts - {ip};
        }
      }
    }
  }

  // ----- slots and their guards -----

  datatype Phase = Pending | Owned | Released

  /** Where one guard's task is: not created, holding the slot, between the two
      parts of a release, or finished. */
  datatype Guard = Unclaimed | Held | Subtracting | FreeingIp | Gone

  /** The last three fields count what happened to the slot. */
  datatype Slot = Slot(
    key: Option<Ip>,
    phase: Phase,
    accept: Guard,
    ws: Guard,
    handovers: nat,
    subtractions: nat,
    frees: nat)

  /** The single accept loop, between its atomic operations. */
  datatype Acceptor = Idle | Admitted | Reserved(key: Option<Ip>)

  datatype System = System(
    maxConnections: nat,
    maxPerIp: nat,
    active: nat,
    counts: map<Ip, nat>,
    slots: seq<Slot>,
    acceptor: Acceptor)

  datatype Step =
    | LoadActive
    | Reserve(ip: Ip, trusted: bool)
    | FetchAdd
    | Handover(slot: nat)
    | DropAccept(slot: nat)
    | DropWs(slot: nat)
    | Subtract(slot: nat, byWs: bool)
    | FreeIp(slot: nat, byWs: bool)

  function GuardOf(sl: Slot, byWs: bool): Guard { if byWs then sl.ws else sl.accept }

  function WithGuard(sl: Slot, byWs: bool, g: Guard): Slot {
    if byWs then sl.(ws := g) else sl.(accept := g)
  }

  function WrappingDecrement(n: nat): nat { if n == 0 then USIZE_MAX else n - 1 }

  /** Compare-exchange PENDING -> OWNED; the winner gets the guard. */
  function HandoverSlot(sl: Slot): Slot {
    if sl.phase == Pending then sl.(phase := Owned, ws := Held, handovers := sl.handovers + 1) else sl
  }

  /** Compare-exchange PENDING -> RELEASED; the winner goes on to release. */
  function DropAcceptSlot(sl: Slot): Slot {
    if sl.phase == Pending then sl.(phase := Released, accept := Subtracting) else sl.(accept := Gone)
  }

  /** Swap to RELEASED; the release follows only when the slot was OWNED. */
  function DropWsSlot(sl: Slot): Slot {
    sl.(phase := Released, ws := if sl.phase == Owned then Subtracting else Gone)
  }

  /** One atomic step. A step that is not enabled leaves the system alone. */
  function Next(s: System, step: Step): System {
    match step
    case LoadActive =>
      if s.acceptor == Idle && s.active < s.maxConnections then s.(acceptor := Admitted) else s
    case Reserve(ip, trusted) =>
      if s.acceptor != Admitted then s
      else if trusted then s.(acceptor := Reserved(None))
      else
        var (counts, ok) := TryAcquire(s.counts, ip, s.maxPerIp);
        s.(counts := counts, acceptor := if ok then Reserved(Some(ip)) else Idle)
    case FetchAdd =>
      if s.acceptor.Reserved? then
        s.(active := s.active + 1, acceptor := Idle,
           slots := s.slots + [Slot(s.acceptor.key, Pending, Held, Unclaimed, 0, 0, 0)])
      else s
    case Handover(i) =>
      if i < |s.slots| then s.(slots := s.slots[i := HandoverSlot(s.slots[i])]) else s
    case DropAccept(i) =>
      if i < |s.slots| && s.slots[i].accept == Held then s.(slots := s.slots[i := DropAcceptSlot(s.slots[i])]) else s
    case DropWs(i) =>
      if i < |s.slots| && s.slots[i].ws == Held then s.(slots := s.slots[i := DropWsSlot(s.slots[i])]) else s
    case Subtract(i, byWs) =>
      if i < |s.slots| && GuardOf(s.slots[i], byWs) == Subtracting then
        var sl := WithGuard(s.slots[i], byWs, FreeingIp).(subtractions := s.slots[i].subtractions + 1);
        s.(active := WrappingDecrement(s.active), slots := s.slots[i := sl])
      else s
    case FreeIp(i, byWs) =>
      if i < |s.slots| && GuardOf(s.slots[i], byWs) == FreeingIp then
        var sl := WithGuard(s.slots[i], byWs, Gone).(frees := s.slots[i].frees + 1);
        s.(counts := if sl.key.Some? then ReleaseIp(s.counts, sl.key.value) else s.counts, slots := s.slots[i := sl])
      else s
  }

  // ----- the invariant -----

  /** The shapes a slot can be in, and what has happened to it in each. */
  ghost predicate SlotOk(sl: Slot) {
    && sl.accept != Unclaimed
    && match sl.phase
       case Pending =>
         sl.accept == Held && sl.ws == Unclaimed && sl.handovers == 0 && sl.subtractions == 0 && sl.frees == 0
       case Owned =>
         && (sl.accept == Held || sl.accept == Gone) && sl.ws == Held
         && sl.handovers == 1 && sl.subtractions == 0 && sl.frees == 0
       case Released =>
         if sl.ws == Unclaimed then sl.handovers == 0 && sl.accept != Held && Released1(sl, sl.accept)
         else sl.handovers == 1 && (sl.accept == Held || sl.accept == Gone) && sl.ws != Held && Released1(sl, sl.ws)
  }

  /** The release made by one guard: first the global count, then the IP. */
  predicate Released1(sl: Slot, g: Guard) {
    && sl.subtractions == (if g == Subtracting then 0 else 1)
    && sl.frees == (if g == Gone then 1 else 0)
  }

  predicate Counted(sl: Slot) { sl.subtractions == 0 }

  predicate Keyed(sl: Slot, ip: Ip) { sl.key == Some(ip) && sl.frees == 0 }

  function CountActive(slots: seq<Slot>): nat {
    if slots == [] then 0 else CountActive(slots[..|slots| - 1]) + if Counted(slots[|slots| - 1]) then 1 else 0
  }

  function CountKeyed(slots: seq<Slot>, ip: Ip): nat {
    if slots == [] then 0 else CountKeyed(slots[..|slots| - 1], ip) + if Keyed(slots[|slots| - 1], ip) then 1 else 0
  }

  /** Slots an address holds, with the one the accept loop has just reserved. */
  function HeldBy(s: System, ip: Ip): nat {
    CountKeyed(s.slots, ip) + if s.acceptor == Reserved(Some(ip)) then 1 else 0
  }

  ghost predicate AllSlotsOk(slots: seq<Slot>) {
    forall i :: 0 <= i < |slots| ==> SlotOk(slots[i])
  }

  /** The per-IP map is exactly the held slots, never above the cap, and has no
      entry for an address that holds none. */
  ghost predicate CountsOk(s: System) {
    forall ip :: CountOf(s.counts, ip) == HeldBy(s, ip) <= s.maxPerIp && (ip in s.counts <==> HeldBy(s, ip) > 0)
  }

  ghost predicate Inv(s: System) {
    && AllSlotsOk(s.slots)
    && s.active == CountActive(s.slots)
    && s.active + (if s.acceptor == Idle then 0 else 1) <= s.maxConnections
    && (s.maxPerIp > 0 ==> CountsOk(s))
  }

  function Init(maxConnections: nat, maxPerIp: nat): System {
    System(maxConnections, maxPerIp, 0, map[], [], Idle)
  }

  // ----- counting -----

  lemma {:induction false} CountActiveUpdate(slots: seq<Slot>, i: nat, sl: Slot)
    requires i < |slots|
    ensures CountActive(slots[i := sl]) ==
      CountActive(slots) - (if Counted(slots[i]) then 1 else 0) + (if Counted(sl) then 1 else 0)
    ensures Counted(slots[i]) ==> CountActive(slots) > 0
    decreases |slots|
  {
    var prefix := slots[..|slots| - 1];
    if i < |prefix| {
      assert slots[i := sl][..|slots| - 1] == prefix[i := sl];
      CountActiveUpdate(prefix, i, sl);
    } else {
      assert slots[i := sl][..|slots| - 1] == prefix;
    }
  }

  lemma {:induction false} CountKeyedUpdate(slots: seq<Slot>, i: nat, sl: Slot, ip: Ip)
    requires i < |slots|
    ensures CountKeyed(slots[i := sl], ip) ==
      CountKeyed(slots, ip) - (if Keyed(slots[i], ip) then 1 else 0) + (if Keyed(sl, ip) then 1 else 0)
    ensures Keyed(slots[i], ip) ==> CountKeyed(slots, ip) > 0
    decreases |slots|
  {
    var prefix := slots[..|slots| - 1];
    if i < |prefix| {
      assert slots[i := sl][..|slots| - 1] == prefix[i := sl];
      CountKeyedUpdate(prefix, i, sl, ip);
    } else {
      assert slots[i := sl][..|slots| - 1] == prefix;
    }
  }

  lemma CountSnoc(slots: seq<Slot>, sl: Slot)
    ensures CountActive(slots + [sl]) == CountActive(slots) + if Counted(sl) then 1 else 0
    ensures forall ip :: CountKeyed(slots + [sl], ip) == CountKeyed(slots, ip) + if Keyed(sl, ip) then 1 else 0
  {
    assert (slots + [sl])[..|slots|] == slots;
  }

  // ----- every step keeps the invariant -----

  lemma SameCounts(s: System, t: System)
    requires s.maxPerIp > 0 ==> CountsOk(s)
    requires t.counts == s.counts && t.maxPerIp == s.maxPerIp && forall ip :: HeldBy(t, ip) == HeldBy(s, ip)
    ensures t.maxPerIp > 0 ==> CountsOk(t)
  {
  }

  /** A step of one slot that touches neither count. */
  lemma QuietSlot(s: System, i: nat, sl: Slot)
    requires Inv(s) && i < |s.slots| && SlotOk(sl)
    requires Counted(sl) == Counted(s.slots[i]) && sl.key == s.slots[i].key && sl.frees == s.slots[i].frees
    ensures Inv(s.(slots := s.slots[i := sl]))
  {
    var t := s.(slots := s.slots[i := sl]);
    CountActiveUpdate(s.slots, i, sl);
    forall ip ensures HeldBy(t, ip) == HeldBy(s, ip) {
      CountKeyedUpdate(s.slots, i, sl, ip);
    }
  }

  lemma SubtractKeeps(s: System, i: nat, byWs: bool)
    requires Inv(s)
    ensures Inv(Next(s, Subtract(i, byWs)))
  {
    if i < |s.slots| && GuardOf(s.slots[i], byWs) == Subtracting {
      var t := Next(s, Subtract(i, byWs));
      assert SlotOk(s.slots[i]);
      CountActiveUpdate(s.slots, i, t.slots[i]);
      forall ip ensures HeldBy(t, ip) == HeldBy(s, ip) {
        CountKeyedUpdate(s.slots, i, t.slots[i], ip);
      }
    }
  }

  lemma FreeIpKeeps(s: System, i: nat, byWs: bool)
    requires Inv(s)
    ensures Inv(Next(s, FreeIp(i, byWs)))
  {
    if i < |s.slots| && GuardOf(s.slots[i], byWs) == FreeingIp {
      var t := Next(s, FreeIp(i, byWs));
      assert SlotOk(s.slots[i]);
      CountActiveUpdate(s.slots, i, t.slots[i]);
      forall ip: Ip ensures HeldBy(t, ip) == HeldBy(s, ip) - (if s.slots[i].key == Some(ip) then 1 else 0) {
        CountKeyedUpdate(s.slots, i, t.slots[i], ip);
      }
      FreedCounts(s, t, s.slots[i].key);
    }
  }

  lemma FreedCounts(s: System, t: System, key: Option<Ip>)
    requires (s.maxPerIp > 0 ==> CountsOk(s)) && t.maxPerIp == s.maxPerIp
    requires t.counts == if key.Some? then ReleaseIp(s.counts, key.value) else s.counts
    requires forall ip: Ip :: HeldBy(t, ip) == HeldBy(s, ip) - (if key == Some(ip) then 1 else 0)
    ensures t.maxPerIp > 0 ==> CountsOk(t)
  {
  }

  lemma ReserveKeeps(s: System, ip: Ip, trusted: bool)
    requires Inv(s)
    ensures Inv(Next(s, Reserve(ip, trusted)))
  {
    var t := Next(s, Reserve(ip, trusted));
    if s.acceptor == Admitted {
      forall x ensures HeldBy(t, x) == HeldBy(s, x) + (if t.acceptor == Reserved(Some(x)) then 1 else 0) {
      }
    }
  }

  /** The slot takes the place of the reservation. */
  lemma ReservedIsHeld(s: System, t: System, sl: Slot)
    requires s.acceptor == Reserved(sl.key) && t.acceptor == Idle && t.slots == s.slots + [sl] && sl.frees == 0
    ensures forall ip :: HeldBy(t, ip) == HeldBy(s, ip)
  {
    CountSnoc(s.slots, sl);
    forall ip ensures HeldBy(t, ip) == HeldBy(s, ip) {
      assert CountKeyed(t.slots, ip) == CountKeyed(s.slots, ip) + if Keyed(sl, ip) then 1 else 0;
    }
  }

  lemma FetchAddKeeps(s: System)
    requires Inv(s)
    ensures Inv(Next(s, FetchAdd))
  {
    if s.acceptor.Reserved? {
      var t := Next(s, FetchAdd);
      var sl := Slot(s.acceptor.key, Pending, Held, Unclaimed, 0, 0, 0);
      CountSnoc(s.slots, sl);
      ReservedIsHeld(s, t, sl);
      SameCounts(s, t);
      assert AllSlotsOk(t.slots) by {
        assert forall i :: 0 <= i < |s.slots| ==> t.slots[i] == s.slots[i];
      }
    }
  }

  lemma NextKeeps(s: System, step: Step)
    requires Inv(s)
    ensures Inv(Next(s, step))
  {
    match step
    case LoadActive =>
      forall ip ensures HeldBy(Next(s, step), ip) == HeldBy(s, ip) {
      }
    case Reserve(ip, trusted) => ReserveKeeps(s, ip, trusted);
    case FetchAdd => FetchAddKeeps(s);
    case Handover(i) =>
      if i < |s.slots| {
        QuietSlot(s, i, HandoverSlot(s.slots[i]));
      }
    case DropAccept(i) =>
      if i < |s.slots| && s.slots[i].accept == Held {
        QuietSlot(s, i, DropAcceptSlot(s.slots[i]));
      }
    case DropWs(i) =>
      if i < |s.slots| && s.slots[i].ws == Held {
        QuietSlot(s, i, DropWsSlot(s.slots[i]));
      }
    case Subtract(i, byWs) => SubtractKeeps(s, i, byWs);
    case FreeIp(i, byWs) => FreeIpKeeps(s, i, byWs);
  }

  // ----- every interleaving -----

  function Run(s: System, steps: seq<Step>): System
    decreases |steps|
  {
    if steps == [] then s else Next(Run(s, steps[..|steps| - 1]), steps[|steps| - 1])
  }

  lemma {:induction false} RunKeeps(s: System, steps: seq<Step>)
    requires Inv(s)
    ensures Inv(Run(s, steps))
    decreases |steps|
  {
    if steps != [] {
      RunKeeps(s, steps[..|steps| - 1]);
      NextKeeps(Run(s, steps[..|steps| - 1]), steps[|steps| - 1]);
    }
  }

  lemma InitOk(maxConnections: nat, maxPerIp: nat)
    ensures Inv(Init(maxConnections, maxPerIp))
  {
  }

  /** Under every interleaving: at most one handover wins a slot, its release is
      made at most once and in both parts, `active` is the number of slots not
      yet released and stays within the cap. */
  lemma ExactlyOnceRelease(maxConnections: nat, maxPerIp: nat, steps: seq<Step>, i: nat)
    requires i < |Run(Init(maxConnections, maxPerIp), steps).slots|
    ensures
      var s := Run(Init(maxConnections, maxPerIp), steps);
      && s.slots[i].handovers <= 1 && s.slots[i].subtractions <= 1 && s.slots[i].frees <= s.slots[i].subtractions
      && s.active == CountActive(s.slots) <= maxConnections
  {
    InitOk(maxConnections, maxPerIp);
    RunKeeps(Init(maxConnections, maxPerIp), steps);
    RunKeepsCaps(Init(maxConnections, maxPerIp), steps);
    assert SlotOk(Run(Init(maxConnections, maxPerIp), steps).slots[i]);
  }

  lemma {:induction false} RunKeepsCaps(s: System, steps: seq<Step>)
    ensures Run(s, steps).maxConnections == s.maxConnections && Run(s, steps).maxPerIp == s.maxPerIp
    decreases |steps|
  {
    if steps != [] {
      RunKeepsCaps(s, steps[..|steps| - 1]);
    }
  }

  /** The global count is never decremented at zero. */
  lemma NoUnderflow(s: System, i: nat, byWs: bool)
    requires Inv(s) && i < |s.slots| && GuardOf(s.slots[i], byWs) == Subtracting
    ensures s.active > 0
  {
    assert SlotOk(s.slots[i]);
    CountActiveUpdate(s.slots, i, s.slots[i]);
  }

  /** With a positive per-IP cap, the map refines the live slots. */
  lemma PerIpCounts(maxConnections: nat, maxPerIp: nat, steps: seq<Step>, ip: Ip)
    requires maxPerIp > 0
    ensures
      var s := Run(Init(maxConnections, maxPerIp), steps);
      && (ip in s.counts ==> 1 <= s.counts[ip] == HeldBy(s, ip) <= maxPerIp)
      && (ip !in s.counts ==> HeldBy(s, ip) == 0)
  {
    InitOk(maxConnections, maxPerIp);
    RunKeeps(Init(maxConnections, maxPerIp), steps);
    RunKeepsCaps(Init(maxConnections, maxPerIp), steps);
  }

  /** No slot and no reservation has an address. */
  ghost predicate Keyless(s: System) {
    && s.counts == map[] && (s.acceptor.Reserved? ==> s.acceptor.key == None)
    && forall i :: 0 <= i < |s.slots| ==> s.slots[i].key == None
  }

  /** In every run that reserves for trusted peers only, whatever the cap, the
      per-IP map stays empty: slots without an address never touch it. */
  lemma {:induction false} KeylessNeverTouches(maxConnections: nat, maxPerIp: nat, steps: seq<Step>)
    requires forall i :: 0 <= i < |steps| && steps[i].Reserve? ==> steps[i].trusted
    ensures Keyless(Run(Init(maxConnections, maxPerIp), steps))
    decreases |steps|
  {
    if steps != [] {
      KeylessNeverTouches(maxConnections, maxPerIp, steps[..|steps| - 1]);
    }
  }

  /** With a cap of 0 the map is empty in every run, slots with an address
      included: nothing is counted, and releasing what was not counted leaves no
      trace. */
  lemma {:induction false} UncappedCountsNothing(maxConnections: nat, steps: seq<Step>)
    ensures Run(Init(maxConnections, 0), steps).counts == map[]
    decreases |steps|
  {
    if steps != [] {
      UncappedCountsNothing(maxConnections, steps[..|steps| - 1]);
      RunKeepsCaps(Init(maxConnections, 0), steps[..|steps| - 1]);
    }
  }

  ghost predicate Finished(sl: Slot) {
    sl.accept == Gone && (sl.ws == Unclaimed || sl.ws == Gone)
  }

  lemma {:induction false} NoneCounted(slots: seq<Slot>)
    requires forall i :: 0 <= i < |slots| ==> SlotOk(slots[i]) && Finished(slots[i])
    ensures CountActive(slots) == 0 && forall ip :: CountKeyed(slots, ip) == 0
    decreases |slots|
  {
    if slots != [] {
      NoneCounted(slots[..|slots| - 1]);
      assert SlotOk(slots[|slots| - 1]) && Finished(slots[|slots| - 1]);
    }
  }

  /** Once every guard is dropped nothing is counted any more, globally or for
      any address, whatever the caps. */
  lemma AllReleased(maxConnections: nat, maxPerIp: nat, steps: seq<Step>)
    requires
      var s := Run(Init(maxConnections, maxPerIp), steps);
      !s.acceptor.Reserved? && forall i :: 0 <= i < |s.slots| ==> Finished(s.slots[i])
    ensures
      var s := Run(Init(maxConnections, maxPerIp), steps);
      s.active == 0 && s.counts == map[]
  {
    var s := Run(Init(maxConnections, maxPerIp), steps);
    InitOk(maxConnections, maxPerIp);
    RunKeeps(Init(maxConnections, maxPerIp), steps);
    RunKeepsCaps(Init(maxConnections, maxPerIp), steps);
    NoneCounted(s.slots);
    if maxPerIp > 0 {
      forall ip ensures ip !in s.counts {
        assert HeldBy(s, ip) == 0;
      }
    } else {
      UncappedCountsNothing(maxConnections, steps);
    }
  }

  // ----- what a step achieves -----

  /** A connection is let in while there are fewer than the limit, and gets a slot
      for its address if and only if the address holds fewer than the cap or there
      is no cap. */
  lemma AdmitsExactly(maxConnections: nat, maxPerIp: nat, steps: seq<Step>, ip: Ip)
    ensures
      var s := Run(Init(maxConnections, maxPerIp), steps);
      && (s.acceptor == Idle ==>
            (Next(s, LoadActive).acceptor == Admitted <==> CountActive(s.slots) < maxConnections))
      && (s.acceptor == Admitted ==>
            var t := Next(s, Reserve(ip, false));
            && (t.acceptor == Reserved(Some(ip)) <==> maxPerIp == 0 || HeldBy(s, ip) < maxPerIp)
            && (t.acceptor != Reserved(Some(ip)) ==> t == s.(acceptor := Idle)))
      && (s.acceptor == Admitted ==> Next(s, Reserve(ip, true)) == s.(acceptor := Reserved(None)))
  {
    var s := Run(Init(maxConnections, maxPerIp), steps);
    InitOk(maxConnections, maxPerIp);
    RunKeeps(Init(maxConnections, maxPerIp), steps);
    RunKeepsCaps(Init(maxConnections, maxPerIp), steps);
    if maxPerIp > 0 {
      assert CountOf(s.counts, ip) == HeldBy(s, ip);
      if HeldBy(s, ip) >= maxPerIp {
        assert s.counts[ip := CountOf(s.counts, ip)] == s.counts;
      }
    }
  }

  /** A reserved connection becomes a pending slot that the accept task holds. */
  lemma ReservedBecomesSlot(s: System)
    requires s.acceptor.Reserved?
    ensures
      var t := Next(s, FetchAdd);
      && |t.slots| == |s.slots| + 1 && t.active == s.active + 1 && t.acceptor == Idle
      && t.slots[|s.slots|].key == s.acceptor.key && t.slots[|s.slots|].phase == Pending
      && t.slots[|s.slots|].accept == Held && t.slots[..|s.slots|] == s.slots
  {
  }

  /** The handover of a slot that is still pending wins it, and no other does: the
      task that got it holds it, and the accept guard can no longer release it. */
  lemma HandoverWins(s: System, i: nat)
    requires Inv(s) && i < |s.slots|
    ensures
      var t := Next(s, Handover(i));
      if s.slots[i].phase == Pending
      then t.slots[i].phase == Owned && t.slots[i].ws == Held && t.slots[i].handovers == 1
           && Next(t, DropAccept(i)).slots[i].accept == Gone && Next(t, DropAccept(i)).slots[i].phase == Owned
      else t == s
  {
    assert SlotOk(s.slots[i]);
    if s.slots[i].phase != Pending {
      assert s.slots[i := s.slots[i]] == s.slots;
    }
  }

  /** Who has to drop a slot for it to be released. */
  function Release(s: System, i: nat): seq<Step>
    requires i < |s.slots|
  {
    if s.slots[i].phase == Pending then [DropAccept(i), Subtract(i, false), FreeIp(i, false)]
    else [DropWs(i), Subtract(i, true), FreeIp(i, true)]
  }

  lemma RunSnoc(s: System, steps: seq<Step>, step: Step)
    ensures Run(s, steps + [step]) == Next(Run(s, steps), step)
  {
    assert (steps + [step])[..|steps|] == steps;
  }

  lemma RunThree(s: System, a: Step, b: Step, c: Step)
    ensures Run(s, [a, b, c]) == Next(Next(Next(s, a), b), c)
  {
    assert [] + [a] == [a] && [a] + [b] == [a, b] && [a, b] + [c] == [a, b, c];
    assert Run(s, []) == s;
    RunSnoc(s, [], a);
    RunSnoc(s, [a], b);
    RunSnoc(s, [a, b], c);
  }

  /** The slot as its release leaves it. */
  function Freed(sl: Slot): Slot {
    var done := sl.(phase := Released, subtractions := sl.subtractions + 1, frees := sl.frees + 1);
    if sl.phase == Pending then done.(accept := Gone) else done.(ws := Gone)
  }

  /** One step on a slot, by what it makes of the slot. */
  lemma SlotStep(s: System, step: Step, i: nat, sl: Slot, next: Slot)
    requires i < |s.slots| && Next(s, step).slots == s.slots[i := sl]
    ensures |Next(s, step).slots| == |s.slots| && Next(s, step).slots[i] == sl
    ensures Next(s, step).slots[i := next] == s.slots[i := next]
  {
  }

  lemma ReleaseBy(s: System, i: nat, byWs: bool, drop: Step)
    requires i < |s.slots| && drop == (if byWs then DropWs(i) else DropAccept(i))
    requires s.slots[i].phase == (if byWs then Owned else Pending) && GuardOf(s.slots[i], byWs) == Held
    ensures
      var t := Next(Next(Next(s, drop), Subtract(i, byWs)), FreeIp(i, byWs));
      && t.slots == s.slots[i := Freed(s.slots[i])] && t.acceptor == s.acceptor
      && t.active == WrappingDecrement(s.active)
  {
    var sl := s.slots[i];
    var dropped := WithGuard(sl.(phase := Released), byWs, Subtracting);
    var counted := WithGuard(dropped, byWs, FreeingIp).(subtractions := sl.subtractions + 1);
    assert Next(s, drop).slots == s.slots[i := dropped];
    SlotStep(s, drop, i, dropped, counted);
    var one := Next(s, drop);
    assert Next(one, Subtract(i, byWs)).slots == one.slots[i := counted];
    SlotStep(one, Subtract(i, byWs), i, counted, Freed(sl));
    SlotStep(s, drop, i, dropped, Freed(sl));
    var two := Next(one, Subtract(i, byWs));
    assert Next(two, FreeIp(i, byWs)).slots == two.slots[i := Freed(sl)];
  }

  lemma ReleaseSteps(s: System, i: nat)
    requires Inv(s) && i < |s.slots| && s.slots[i].phase != Released
    ensures
      var t := Run(s, Release(s, i));
      && t.slots == s.slots[i := Freed(s.slots[i])] && t.acceptor == s.acceptor
      && t.active == WrappingDecrement(s.active)
  {
    assert SlotOk(s.slots[i]);
    var byWs := s.slots[i].phase == Owned;
    var drop := if byWs then DropWs(i) else DropAccept(i);
    ReleaseBy(s, i, byWs, drop);
    RunThree(s, drop, Subtract(i, byWs), FreeIp(i, byWs));
  }

  /** A slot nobody has released yet is released for good once its holder drops it:
      the count goes down by one and its address has one slot less. */
  lemma ReleaseCompletes(s: System, i: nat)
    requires Inv(s) && i < |s.slots| && s.slots[i].phase != Released
    ensures
      var t := Run(s, Release(s, i));
      && |t.slots| == |s.slots| && t.active == s.active - 1
      && t.slots[i].subtractions == 1 && t.slots[i].frees == 1 && t.slots[i].phase == Released
      && forall ip: Ip :: HeldBy(t, ip) == HeldBy(s, ip) - (if s.slots[i].key == Some(ip) then 1 else 0)
  {
    assert SlotOk(s.slots[i]);
    ReleaseSteps(s, i);
    var t := Run(s, Release(s, i));
    CountActiveUpdate(s.slots, i, t.slots[i]);
    forall ip: Ip ensures HeldBy(t, ip) == HeldBy(s, ip) - (if s.slots[i].key == Some(ip) then 1 else 0) {
      CountKeyedUpdate(s.slots, i, t.slots[i], ip);
    }
  }
}
