/** Replaying stored NIP-29 moderation. Two parts of the relay do it: a
    migration, which authorises every event against the groups derived so far,
    and the rebuild at startup, which trusts what is stored (`World.startup`).
    The group store is reached only through the functions of `World`, so
    everything proved here holds for every deterministic group store.

    The stored moderation events (kinds 9000-9022) are one sequence in replay
    order. */
module Moderation {
  import opened Text
  import opened Events
  import opened EventLists

  const PENDING_STATE_MAX: nat := 50_000
  const PENDING_STATE_BYTES: nat := 64 * 1024 * 1024
  const FUTURE_SECS: nat := 600

  datatype World<!G> = World(
    empty: G,
    known: (G, string) -> bool,
    closed: (G, string) -> bool,
    isAdmin: (G, string, string) -> bool,
    ghosted: (G, string) -> bool,
    deleted: (G, string) -> bool,
    apply: (G, Event) -> G,
    jsonBytes: Event -> nat,
    relayPubkey: Option<string>,
    vanished: set<string>,
    arrived: map<string, nat>,
    now: nat,
    startup: bool)

  predicate IsAction(e: Event) { e.kind == DELETE_EVENT || e.kind == DELETE_GROUP }

  function NonEmptyGroup(e: Event): Option<string> {
    if GroupId(e).Some? && GroupId(e).value != "" then GroupId(e) else None
  }

  predicate FutureDated<G>(w: World<G>, e: Event) { e.createdAt > w.now + FUTURE_SECS }

  // ----- what a replay skips or strips before judging -----

  /** Whether a kind:9001 removes the author of a join in the join's second. */
  predicate Removes(removal: Event, e: Event) {
    && removal.kind == REMOVE_USER && removal.createdAt == e.createdAt
    && GroupId(removal) == Some(if GroupId(e).Some? then GroupId(e).value else "")
    && HasTag(removal.tags, "p", e.pubkey)
  }

  /** Whether a removal of the same second suppresses a join. The rebuild leaves
      the order to the arrival numbers when both events have one. */
  predicate Suppressed<G>(w: World<G>, history: seq<Event>, e: Event) {
    exists i :: 0 <= i < |history| && Removes(history[i], e)
      && (w.startup ==> e.id !in w.arrived || history[i].id !in w.arrived)
  }

  function WithoutVanished<G>(w: World<G>, tags: seq<seq<string>>): seq<seq<string>> {
    if tags == [] then []
    else
      var rest := WithoutVanished(w, tags[1..]);
      if |tags[0]| < 2 || tags[0][0] != "p" || tags[0][1] !in w.vanished then [tags[0]] + rest else rest
  }

  predicate Skips<G>(w: World<G>, history: seq<Event>, e: Event) {
    || (e.kind == JOIN && (e.pubkey in w.vanished || Suppressed(w, history, e)))
    || (e.kind == PUT_USER && WithoutVanished(w, e.tags) == [])
    || (w.startup && FutureDated(w, e))
  }

  function Stripped<G>(w: World<G>, e: Event): Event {
    if e.kind == PUT_USER then e.(tags := WithoutVanished(w, e.tags)) else e
  }

  /** The events as the replay judges them. */
  function PrepareAll<G>(w: World<G>, history: seq<Event>, events: seq<Event>): seq<Event> {
    if events == [] then []
    else
      var rest, e := PrepareAll(w, history, events[..|events| - 1]), events[|events| - 1];
      if Skips(w, history, e) then rest else rest + [Stripped(w, e)]
  }

  function Prepared<G>(w: World<G>, history: seq<Event>): seq<Event> {
    PrepareAll(w, history, history)
  }

  // ----- the authorisation gate -----

  predicate AdmitsJoin<G>(w: World<G>, g: G, e: Event) {
    && GroupId(e).Some?
    && w.known(g, GroupId(e).value)
    && (!w.closed(g, GroupId(e).value)
        || (FirstTagValue(e.tags, "code").Some? && FirstTagValue(e.tags, "code").value != ""))
  }

  predicate MayModerate<G>(w: World<G>, g: G, e: Event) {
    || (w.relayPubkey.Some? && EqIgnoreCase(w.relayPubkey.value, e.pubkey))
    || (if GroupId(e).Some? && w.known(g, GroupId(e).value) then w.isAdmin(g, GroupId(e).value, e.pubkey)
        else e.kind == CREATE_GROUP)
  }

  predicate Authorized<G>(w: World<G>, g: G, e: Event) {
    w.startup ||
    (&& !FutureDated(w, e)
     && (IsGroupKind(e.kind) ==> GroupId(e).Some?)
     && (e.kind == JOIN ==> AdmitsJoin(w, g, e))
     && (MOD_MIN <= e.kind <= MOD_MAX ==> MayModerate(w, g, e)))
  }

  // ----- one replay, as a value -----

  /** `held` are the state events whose group has not been created yet, in order;
      `accepted` and `refused` record the verdicts so far. */
  datatype Walk<G> = Walk(
    groups: G,
    held: seq<Event>,
    count: nat,
    bytes: nat,
    accepted: seq<Event>,
    refused: seq<Event>)

  function Start<G>(w: World<G>): Walk<G> {
    Walk(w.empty, [], 0, 0, [], [])
  }

  /** Judges one event and applies it when authorised. A refused join to an
      unknown group is kept when it is judged in order (`orphansKept`). */
  function Adjudicate<G>(w: World<G>, s: Walk<G>, e: Event, orphansKept: bool): Walk<G> {
    if Authorized(w, s.groups, e) then s.(groups := w.apply(s.groups, e), accepted := s.accepted + [e])
    else if orphansKept && e.kind == JOIN && GroupId(e).Some? && !w.known(s.groups, GroupId(e).value) then s
    else s.(refused := s.refused + [e])
  }

  function AdjudicateAll<G>(w: World<G>, s: Walk<G>, events: seq<Event>): Walk<G>
    decreases |events|
  {
    if events == [] then s
    else Adjudicate(w, AdjudicateAll(w, s, events[..|events| - 1]), events[|events| - 1], false)
  }

  /** A state event whose group has not been created yet. */
  predicate Early<G>(w: World<G>, g: G, e: Event) {
    && e.kind != CREATE_GROUP
    && NonEmptyGroup(e).Some?
    && !w.known(g, NonEmptyGroup(e).value)
    && !w.ghosted(g, NonEmptyGroup(e).value)
    && !w.deleted(g, NonEmptyGroup(e).value)
  }

  predicate HasRoom<G>(w: World<G>, s: Walk<G>, e: Event) {
    s.count < PENDING_STATE_MAX && s.bytes + w.jsonBytes(e) <= PENDING_STATE_BYTES
  }

  function Hold<G>(w: World<G>, s: Walk<G>, e: Event): Walk<G> {
    s.(held := s.held + [e], count := s.count + 1, bytes := s.bytes + w.jsonBytes(e))
  }

  function TotalBytes<G>(w: World<G>, events: seq<Event>): nat {
    if events == [] then 0 else TotalBytes(w, events[..|events| - 1]) + w.jsonBytes(events[|events| - 1])
  }

  /** The held events of one group, or of all the others. */
  function Of(events: seq<Event>, gid: string, own: bool): seq<Event> {
    if events == [] then []
    else
      var rest, last := Of(events[..|events| - 1], gid, own), events[|events| - 1];
      if (NonEmptyGroup(last) == Some(gid)) == own then rest + [last] else rest
  }

  function Monus(a: nat, b: nat): nat { if a < b then 0 else a - b }

  /** The walk once a group's events have been taken out to be judged. */
  function Take<G>(w: World<G>, s: Walk<G>, gid: string): Walk<G> {
    var own := Of(s.held, gid, true);
    s.(held := Of(s.held, gid, false), count := Monus(s.count, |own|), bytes := Monus(s.bytes, TotalBytes(w, own)))
  }

  /** Whether an event releases its group's held events. */
  predicate Releases<G>(w: World<G>, g: G, e: Event) {
    Authorized(w, g, e) && e.kind == CREATE_GROUP && NonEmptyGroup(e).Some?
  }

  function Decide<G>(w: World<G>, s: Walk<G>, e: Event): Walk<G> {
    var t := Adjudicate(w, s, e, true);
    if Releases(w, s.groups, e) then
      var gid := NonEmptyGroup(e).value;
      AdjudicateAll(w, Take(w, t, gid), Of(s.held, gid, true))
    else t
  }

  function Visit<G>(w: World<G>, s: Walk<G>, e: Event): Walk<G> {
    if Early(w, s.groups, e) && e.kind == DELETE_GROUP then s
    else if Early(w, s.groups, e) && HasRoom(w, s, e) then Hold(w, s, e)
    else Decide(w, s, e)
  }

  function VisitAll<G>(w: World<G>, s: Walk<G>, events: seq<Event>): Walk<G>
    decreases |events|
  {
    if events == [] then s else Visit(w, VisitAll(w, s, events[..|events| - 1]), events[|events| - 1])
  }

  /** The whole replay of a stored history. */
  function Replay<G>(w: World<G>, history: seq<Event>): Walk<G> {
    VisitAll(w, Start(w), Prepared(w, history))
  }

  ghost predicate Performed(accepted: seq<Event>, applied: set<string>) {
    forall i :: 0 <= i < |accepted| && IsAction(accepted[i]) ==> accepted[i].id in applied
  }

  /** No action a replay of this history authorises is left unapplied. */
  ghost predicate Stable<G>(w: World<G>, history: seq<Event>, applied: set<string>) {
    Performed(Replay(w, history).accepted, applied)
  }

  // ----- what is held is counted exactly -----

  ghost predicate Sized<G>(w: World<G>, s: Walk<G>) {
    s.count == |s.held| && s.bytes == TotalBytes(w, s.held)
  }

  lemma {:induction false} OfSizes<G>(w: World<G>, events: seq<Event>, gid: string)
    ensures |Of(events, gid, true)| + |Of(events, gid, false)| == |events|
    ensures TotalBytes(w, Of(events, gid, true)) + TotalBytes(w, Of(events, gid, false)) == TotalBytes(w, events)
    decreases |events|
  {
    if events != [] {
      var prefix, last := events[..|events| - 1], events[|events| - 1];
      OfSizes(w, prefix, gid);
      var own := NonEmptyGroup(last) == Some(gid);
      TotalBytesSnoc(w, Of(prefix, gid, own), last);
    }
  }

  lemma TotalBytesSnoc<G>(w: World<G>, events: seq<Event>, e: Event)
    ensures TotalBytes(w, events + [e]) == TotalBytes(w, events) + w.jsonBytes(e)
  {
    assert (events + [e])[..|events|] == events;
  }

  lemma {:induction false} AdjudicateAllHolds<G>(w: World<G>, s: Walk<G>, events: seq<Event>)
    ensures AdjudicateAll(w, s, events) ==
      AdjudicateAll(w, s, events).(held := s.held, count := s.count, bytes := s.bytes)
    decreases |events|
  {
    if events != [] {
      AdjudicateAllHolds(w, s, events[..|events| - 1]);
    }
  }

  /** The counters never drift from what is held, so their saturating
      subtractions never saturate. */
  lemma VisitSized<G>(w: World<G>, s: Walk<G>, e: Event)
    requires Sized(w, s)
    ensures Sized(w, Visit(w, s, e))
  {
    TotalBytesSnoc(w, s.held, e);
    if Releases(w, s.groups, e) {
      var gid := NonEmptyGroup(e).value;
      OfSizes(w, s.held, gid);
      AdjudicateAllHolds(w, Take(w, Adjudicate(w, s, e, true), gid), Of(s.held, gid, true));
    }
  }

  lemma {:induction false} CountersExact<G>(w: World<G>, events: seq<Event>)
    ensures Sized(w, VisitAll(w, Start(w), events))
    decreases |events|
  {
    if events != [] {
      CountersExact(w, events[..|events| - 1]);
      VisitSized(w, VisitAll(w, Start(w), events[..|events| - 1]), events[|events| - 1]);
    }
  }

  // ----- where the judged events come from -----

  /** A judged event is a stored one, up to the tags stripped from a grant. */
  ghost predicate Comes(history: seq<Event>, e: Event) {
    exists i :: 0 <= i < |history| && SameButTags(history[i], e)
  }

  predicate SameButTags(stored: Event, e: Event) {
    stored == e.(tags := stored.tags) && (e.kind != PUT_USER ==> stored == e)
  }

  ghost predicate From(events: seq<Event>, history: seq<Event>) {
    forall i :: 0 <= i < |events| ==> Comes(history, events[i])
  }

  ghost predicate WalkFrom<G>(s: Walk<G>, history: seq<Event>) {
    From(s.accepted, history) && From(s.refused, history) && From(s.held, history)
  }

  lemma AdjudicateFrom<G>(w: World<G>, s: Walk<G>, e: Event, orphansKept: bool, history: seq<Event>)
    requires WalkFrom(s, history) && Comes(history, e)
    ensures WalkFrom(Adjudicate(w, s, e, orphansKept), history)
  {
  }

  lemma {:induction false} AdjudicateAllFrom<G>(w: World<G>, s: Walk<G>, events: seq<Event>, history: seq<Event>)
    requires WalkFrom(s, history) && From(events, history)
    ensures WalkFrom(AdjudicateAll(w, s, events), history)
    decreases |events|
  {
    if events != [] {
      AdjudicateAllFrom(w, s, events[..|events| - 1], history);
      AdjudicateFrom(w, AdjudicateAll(w, s, events[..|events| - 1]), events[|events| - 1], false, history);
    }
  }

  lemma {:induction false} OfFrom(events: seq<Event>, gid: string, own: bool, history: seq<Event>)
    requires From(events, history)
    ensures From(Of(events, gid, own), history)
    decreases |events|
  {
    if events != [] {
      OfFrom(events[..|events| - 1], gid, own, history);
    }
  }

  lemma VisitFrom<G>(w: World<G>, s: Walk<G>, e: Event, history: seq<Event>)
    requires WalkFrom(s, history) && Comes(history, e)
    ensures WalkFrom(Visit(w, s, e), history)
  {
    AdjudicateFrom(w, s, e, true, history);
    if Releases(w, s.groups, e) {
      var gid := NonEmptyGroup(e).value;
      OfFrom(s.held, gid, true, history);
      OfFrom(s.held, gid, false, history);
      AdjudicateAllFrom(w, Take(w, Adjudicate(w, s, e, true), gid), Of(s.held, gid, true), history);
    }
  }

  lemma {:induction false} VisitAllFrom<G>(w: World<G>, s: Walk<G>, events: seq<Event>, history: seq<Event>)
    requires WalkFrom(s, history) && From(events, history)
    ensures WalkFrom(VisitAll(w, s, events), history)
    decreases |events|
  {
    if events != [] {
      VisitAllFrom(w, s, events[..|events| - 1], history);
      VisitFrom(w, VisitAll(w, s, events[..|events| - 1]), events[|events| - 1], history);
    }
  }

  lemma {:induction false} PreparedFrom<G>(w: World<G>, history: seq<Event>, events: seq<Event>, origin: seq<Event>)
    requires From(events, origin)
    ensures From(PrepareAll(w, history, events), origin)
    decreases |events|
  {
    if events != [] {
      PreparedFrom(w, history, events[..|events| - 1], origin);
    }
  }

  /** A replay judges stored events only. */
  lemma ReplayFrom<G>(w: World<G>, history: seq<Event>)
    ensures WalkFrom(Replay(w, history), history)
    ensures From(Prepared(w, history), history)
  {
    PreparedFrom(w, history, history, history);
    VisitAllFrom(w, Start(w), Prepared(w, history), history);
  }

  // ----- an accepted event names a group and is not future-dated -----

  ghost predicate Admissible<G>(w: World<G>, events: seq<Event>) {
    forall i :: 0 <= i < |events| ==>
      !FutureDated(w, events[i]) && (IsGroupKind(events[i].kind) ==> GroupId(events[i]).Some?)
  }

  lemma {:induction false} AdjudicateAllAdmissible<G>(w: World<G>, s: Walk<G>, events: seq<Event>)
    requires !w.startup && Admissible(w, s.accepted)
    ensures Admissible(w, AdjudicateAll(w, s, events).accepted)
    decreases |events|
  {
    if events != [] {
      AdjudicateAllAdmissible(w, s, events[..|events| - 1]);
    }
  }

  lemma {:induction false} AcceptedAdmissible<G>(w: World<G>, events: seq<Event>)
    requires !w.startup
    ensures Admissible(w, VisitAll(w, Start(w), events).accepted)
    decreases |events|
  {
    if events != [] {
      var e := events[|events| - 1];
      AcceptedAdmissible(w, events[..|events| - 1]);
      var s := VisitAll(w, Start(w), events[..|events| - 1]);
      if Releases(w, s.groups, e) {
        var gid := NonEmptyGroup(e).value;
        AdjudicateAllAdmissible(w, Take(w, Adjudicate(w, s, e, true), gid), Of(s.held, gid, true));
      }
    }
  }

  // ----- every event is judged once -----

  /** How often an event is accepted, refused or held. */
  ghost function Fates<G>(s: Walk<G>, id: string): nat {
    Count(s.accepted, id) + Count(s.refused, id) + Count(s.held, id)
  }

  lemma AdjudicateFates<G>(w: World<G>, s: Walk<G>, e: Event, orphansKept: bool, id: string)
    ensures Fates(Adjudicate(w, s, e, orphansKept), id) <= Fates(s, id) + if e.id == id then 1 else 0
  {
    CountSnoc(s.accepted, e, id);
    CountSnoc(s.refused, e, id);
  }

  lemma {:induction false} AdjudicateAllFates<G>(w: World<G>, s: Walk<G>, events: seq<Event>, id: string)
    ensures Fates(AdjudicateAll(w, s, events), id) <= Fates(s, id) + Count(events, id)
    decreases |events|
  {
    if events != [] {
      AdjudicateAllFates(w, s, events[..|events| - 1], id);
      AdjudicateFates(w, AdjudicateAll(w, s, events[..|events| - 1]), events[|events| - 1], false, id);
    }
  }

  lemma {:induction false} OfCounts(events: seq<Event>, gid: string, id: string)
    ensures Count(Of(events, gid, true), id) + Count(Of(events, gid, false), id) == Count(events, id)
    decreases |events|
  {
    if events != [] {
      var prefix, last := events[..|events| - 1], events[|events| - 1];
      OfCounts(prefix, gid, id);
      CountSnoc(Of(prefix, gid, NonEmptyGroup(last) == Some(gid)), last, id);
    }
  }

  lemma TakeFates<G>(w: World<G>, s: Walk<G>, gid: string, id: string)
    ensures Fates(Take(w, s, gid), id) + Count(Of(s.held, gid, true), id) == Fates(s, id)
  {
    OfCounts(s.held, gid, id);
  }

  lemma DecideFates<G>(w: World<G>, s: Walk<G>, e: Event, id: string)
    ensures Fates(Decide(w, s, e), id) <= Fates(s, id) + if e.id == id then 1 else 0
  {
    AdjudicateFates(w, s, e, true, id);
    if Releases(w, s.groups, e) {
      var t, gid := Adjudicate(w, s, e, true), NonEmptyGroup(e).value;
      TakeFates(w, t, gid, id);
      AdjudicateAllFates(w, Take(w, t, gid), Of(s.held, gid, true), id);
    }
  }

  lemma VisitFates<G>(w: World<G>, s: Walk<G>, e: Event, id: string)
    ensures Fates(Visit(w, s, e), id) <= Fates(s, id) + if e.id == id then 1 else 0
  {
    CountSnoc(s.held, e, id);
    DecideFates(w, s, e, id);
  }

  lemma {:induction false} VisitAllFates<G>(w: World<G>, events: seq<Event>, id: string)
    ensures Fates(VisitAll(w, Start(w), events), id) <= Count(events, id)
    decreases |events|
  {
    if events != [] {
      VisitAllFates(w, events[..|events| - 1], id);
      VisitFates(w, VisitAll(w, Start(w), events[..|events| - 1]), events[|events| - 1], id);
    }
  }

  lemma {:induction false} PreparedCounts<G>(w: World<G>, history: seq<Event>, events: seq<Event>, id: string)
    ensures Count(PrepareAll(w, history, events), id) <= Count(events, id)
    decreases |events|
  {
    if events != [] {
      var prefix, e := events[..|events| - 1], events[|events| - 1];
      PreparedCounts(w, history, prefix, id);
      CountSnoc(PrepareAll(w, history, prefix), Stripped(w, e), id);
    }
  }

  /** An event has one fate: nothing refused or held back was also accepted. */
  lemma JudgedOnce<G>(w: World<G>, history: seq<Event>, id: string)
    requires UniqueIds(history)
    ensures
      var s := Replay(w, history);
      && !(id in Ids(s.accepted) && (id in Ids(s.refused) || id in Ids(s.held)))
      && !(id in Ids(s.refused) && id in Ids(s.held))
  {
    var s := Replay(w, history);
    CountUnique(history, id);
    PreparedCounts(w, history, history, id);
    VisitAllFates(w, Prepared(w, history), id);
    CountIds(s.accepted, id);
    CountIds(s.refused, id);
    CountIds(s.held, id);
  }

  // ----- a replay only adds to what it accepted -----

  lemma {:induction false} JudgingAdds<G>(w: World<G>, s: Walk<G>, events: seq<Event>, n: nat)
    requires n <= |events|
    ensures AdjudicateAll(w, s, events[..n]).accepted <= AdjudicateAll(w, s, events).accepted
    decreases |events|
  {
    if n < |events| {
      var prefix := events[..|events| - 1];
      JudgingAdds(w, s, prefix, n);
      assert prefix[..n] == events[..n];
    } else {
      assert events[..n] == events;
    }
  }

  lemma VisitAdds<G>(w: World<G>, s: Walk<G>, e: Event)
    ensures s.accepted <= Visit(w, s, e).accepted
    ensures !Early(w, s.groups, e) || (e.kind != DELETE_GROUP && !HasRoom(w, s, e)) ==>
      Adjudicate(w, s, e, true).accepted <= Visit(w, s, e).accepted
  {
    if Releases(w, s.groups, e) {
      var gid := NonEmptyGroup(e).value;
      var t, own := Take(w, Adjudicate(w, s, e, true), gid), Of(s.held, gid, true);
      JudgingAdds(w, t, own, 0);
      assert AdjudicateAll(w, t, own[..0]) == t;
    }
  }

  lemma {:induction false} VisitingAdds<G>(w: World<G>, s: Walk<G>, events: seq<Event>, n: nat)
    requires n <= |events|
    ensures VisitAll(w, s, events[..n]).accepted <= VisitAll(w, s, events).accepted
    decreases |events|
  {
    if n < |events| {
      var prefix := events[..|events| - 1];
      VisitingAdds(w, s, prefix, n);
      assert prefix[..n] == events[..n];
      VisitAdds(w, VisitAll(w, s, prefix), events[|events| - 1]);
    } else {
      assert events[..n] == events;
    }
  }

  /** Where a replay stands before its next event. */
  lemma NextVisit<G>(w: World<G>, history: seq<Event>, i: nat)
    requires i < |Prepared(w, history)|
    ensures
      var events := Prepared(w, history);
      var s := VisitAll(w, Start(w), events[..i]);
      && VisitAll(w, Start(w), events[..i + 1]) == Visit(w, s, events[i])
      && WalkFrom(s, history) && Comes(history, events[i])
      && Visit(w, s, events[i]).accepted <= Replay(w, history).accepted
  {
    var events := Prepared(w, history);
    ReplayFrom(w, history);
    VisitAllFrom(w, Start(w), events[..i], history);
    VisitingAdds(w, Start(w), events, i + 1);
    assert events[..i + 1][..i] == events[..i];
  }

  /** Where the judging of released events stands before its next one. */
  lemma NextJudged<G>(w: World<G>, start: Walk<G>, events: seq<Event>, j: nat, history: seq<Event>)
    requires j < |events| && From(events, history)
    ensures AdjudicateAll(w, start, events[..j + 1]) ==
      Adjudicate(w, AdjudicateAll(w, start, events[..j]), events[j], false)
    ensures AdjudicateAll(w, start, events[..j + 1]).accepted <= AdjudicateAll(w, start, events).accepted
    ensures events[j].id in Ids(history)
  {
    assert events[..j + 1][..j] == events[..j];
    JudgingAdds(w, start, events, j + 1);
    assert Comes(history, events[j]);
  }
}
