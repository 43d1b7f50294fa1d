/** The rate-limited audit log of management operations. */
module Audit {
  import opened Text

  const MAX_PER_WINDOW: nat := 600
  const MAX_PER_IDENTITY: nat := 100
  const ADMIN_RESERVE: nat := 100
  const WINDOW_SECS: nat := 60
  const RING_CAP: nat := 32

  datatype AuditState = AuditState(
    windowStart: nat,
    count: nat,
    suppressed: nat,
    perIdentity: map<string, nat>,
    recent: seq<string>)

  /** A line of the audit trail. */
  datatype Line = Logged(entry: string) | Throttled(suppressed: nat)

  function Own(s: AuditState, identity: string): nat {
    if identity in s.perIdentity then s.perIdentity[identity] else 0
  }

  predicate Rolls(s: AuditState, now: nat) {
    now < s.windowStart || now - s.windowStart >= WINDOW_SECS
  }

  function Roll(s: AuditState, now: nat): AuditState {
    if Rolls(s, now) then AuditState(now, 0, 0, map[], s.recent) else s
  }

  function RollLines(s: AuditState, now: nat): seq<Line> {
    if Rolls(s, now) && s.suppressed > 0 then [Throttled(s.suppressed)] else []
  }

  function Limit(admin: bool): nat { if admin then MAX_PER_WINDOW + ADMIN_RESERVE else MAX_PER_WINDOW }

  predicate Admits(s: AuditState, identity: string, admin: bool) {
    Own(s, identity) < MAX_PER_IDENTITY && s.count < Limit(admin)
  }

  function Ring(recent: seq<string>, entry: string): seq<string> {
    (if |recent| >= RING_CAP then recent[1..] else recent) + [entry]
  }

  function Enter(s: AuditState, identity: string, entry: string): AuditState {
    s.(count := s.count + 1, perIdentity := s.perIdentity[identity := Own(s, identity) + 1],
       recent := Ring(s.recent, entry))
  }

  /** One audit call at time `now`, and the lines it writes. */
  function LogForStep(s: AuditState, identity: string, admin: bool, entry: string, now: nat): (AuditState, seq<Line>) {
    var t := Roll(s, now);
    var key := Lower(identity);
    if Admits(t, key, admin) then (Enter(t, key, entry), RollLines(s, now) + [Logged(entry)])
    else (t.(suppressed := t.suppressed + 1), RollLines(s, now))
  }

  function FlushStep(s: AuditState): (AuditState, seq<Line>) {
    if s.suppressed == 0 then (s, []) else (s.(suppressed := 0), [Throttled(s.suppressed)])
  }

  class AuditLog {
    var windowStart: nat
    var count: nat
    var suppressed: nat
    var perIdentity: map<string, nat>
    var recent: seq<string>
    /** What has been written to the trail. */
    var trail: seq<Line>

    ghost function View(): AuditState
      reads this
    {
      AuditState(windowStart, count, suppressed, perIdentity, recent)
    }

    constructor (now: nat)
      ensures View() == AuditState(now, 0, 0, map[], []) && trail == []
    {
      windowStart, count, suppressed, perIdentity := now, 0, 0, map[];
      recent, trail := [], [];
    }

    method LogFor(identity: string, admin: bool, entry: string, now: nat)
      modifies this
      ensures
        var (s, lines) := LogForStep(old(View()), identity, admin, entry, now);
        View() == s && trail == old(trail) + lines
    {
      var key := Lower(identity);
      if now < windowStart || now - windowStart >= WINDOW_SECS {
        if suppressed > 0 {
          trail := trail + [Throttled(suppressed)];
        }
        windowStart, count, suppressed, perIdentity := now, 0, 0, map[];
      }
      var own := if key in perIdentity then perIdentity[key] else 0;
      var limit := if admin then MAX_PER_WINDOW + ADMIN_RESERVE else MAX_PER_WINDOW;
      if own < MAX_PER_IDENTITY && count < limit {
        count := count + 1;
        perIdentity := perIdentity[key := own + 1];
        trail := trail + [Logged(entry)];
        if |recent| >= RING_CAP {
          recent := recent[1..];
        }
        recent := recent + [entry];
      } else {
        suppressed := suppressed + 1;
      }
    }

    method FlushSuppressed()
      modifies this
      ensures
        var (s, lines) := FlushStep(old(View()));
        View() == s && trail == old(trail) + lines
    {
      if suppressed == 0 {
        return;
      }
      var n := suppressed;
      suppressed := 0;
      trail := trail + [Throttled(n)];
    }
  }

  // ----- whole runs -----

  datatype Call = LogFor(identity: string, admin: bool, entry: string, now: nat) | Flush

  /** A run with what an observer can count: the calls made, the trail, and who
      was logged in the current window. */
  datatype Monitor = Monitor(
    state: AuditState,
    calls: nat,
    trail: seq<Line>,
    admins: nat,
    grantees: nat)

  function Observe(m: Monitor, call: Call): Monitor {
    match call
    case Flush =>
      var (s, lines) := FlushStep(m.state);
      m.(state := s, trail := m.trail + lines)
    case LogFor(identity, admin, entry, now) =>
      var (s, lines) := LogForStep(m.state, identity, admin, entry, now);
      var rolled := Rolls(m.state, now);
      var logged := Admits(Roll(m.state, now), Lower(identity), admin);
      Monitor(s, m.calls + 1, m.trail + lines,
              (if rolled then 0 else m.admins) + (if logged && admin then 1 else 0),
              (if rolled then 0 else m.grantees) + (if logged && !admin then 1 else 0))
  }

  function Started(now: nat): Monitor {
    Monitor(AuditState(now, 0, 0, map[], []), 0, [], 0, 0)
  }

  function Run(m: Monitor, calls: seq<Call>): Monitor {
    if calls == [] then m else Observe(Run(m, calls[..|calls| - 1]), calls[|calls| - 1])
  }

  /** The entries a trail logs. */
  function Entries(trail: seq<Line>): seq<string> {
    if trail == [] then []
    else
      var rest := Entries(trail[..|trail| - 1]);
      match trail[|trail| - 1]
      case Logged(entry) => rest + [entry]
      case Throttled(_) => rest
  }

  /** The suppressed calls a trail's summaries report. */
  function Reported(trail: seq<Line>): nat {
    if trail == [] then 0
    else
      var rest := Reported(trail[..|trail| - 1]);
      match trail[|trail| - 1]
      case Logged(_) => rest
      case Throttled(n) => rest + n
  }

  ghost function Sum(m: map<string, nat>): nat {
    if m == map[] then 0
    else
      var k :| k in m;
      m[k] + Sum(m - {k})
  }

  lemma {:induction false} SumRemove(m: map<string, nat>, k: string)
    requires k in m
    ensures Sum(m) == m[k] + Sum(m - {k})
    decreases |m|
  {
    var j :| j in m && Sum(m) == m[j] + Sum(m - {j});
    if j != k {
      Smaller(m, j);
      Smaller(m, k);
      SumRemove(m - {j}, k);
      SumRemove(m - {k}, j);
      assert m - {j} - {k} == m - {k} - {j};
    }
  }

  lemma Smaller(m: map<string, nat>, k: string)
    requires k in m
    ensures |m - {k}| < |m|
  {
    assert m == (m - {k})[k := m[k]];
  }

  lemma SumBump(m: map<string, nat>, k: string)
    ensures Sum(m[k := (if k in m then m[k] else 0) + 1]) == Sum(m) + 1
  {
    var after := m[k := (if k in m then m[k] else 0) + 1];
    SumRemove(after, k);
    if k in m {
      SumRemove(m, k);
      assert after - {k} == m - {k};
    } else {
      assert after - {k} == m;
    }
  }

  function Last(s: seq<string>, n: nat): seq<string> {
    if |s| <= n then s else s[|s| - n..]
  }

  /** What holds after any calls, whatever the clock does. */
  ghost predicate Inv(m: Monitor) {
    && m.state.count == Sum(m.state.perIdentity) == m.admins + m.grantees
    && (forall k :: k in m.state.perIdentity ==> m.state.perIdentity[k] <= MAX_PER_IDENTITY)
    && m.grantees <= MAX_PER_WINDOW
    && m.state.count <= MAX_PER_WINDOW + ADMIN_RESERVE
    && m.calls == |Entries(m.trail)| + Reported(m.trail) + m.state.suppressed
    && m.state.recent == Last(Entries(m.trail), RING_CAP)
  }

  lemma TrailSnoc(trail: seq<Line>, line: Line)
    ensures Entries(trail + [line]) == if line.Logged? then Entries(trail) + [line.entry] else Entries(trail)
    ensures Reported(trail + [line]) == Reported(trail) + if line.Throttled? then line.suppressed else 0
  {
    assert (trail + [line])[..|trail|] == trail;
  }

  lemma RingIsLast(entries: seq<string>, entry: string)
    ensures Ring(Last(entries, RING_CAP), entry) == Last(entries + [entry], RING_CAP)
  {
  }

  /** The window roll on its own. */
  function Rolled(m: Monitor, now: nat): Monitor {
    if Rolls(m.state, now) then Monitor(Roll(m.state, now), m.calls, m.trail + RollLines(m.state, now), 0, 0) else m
  }

  lemma RollKeeps(m: Monitor, now: nat)
    requires Inv(m)
    ensures Inv(Rolled(m, now))
  {
    if m.state.suppressed > 0 {
      TrailSnoc(m.trail, Throttled(m.state.suppressed));
    }
    assert Rolls(m.state, now) && m.state.suppressed == 0 ==> m.trail + RollLines(m.state, now) == m.trail;
  }

  lemma EnterKeeps(m: Monitor, key: string, admin: bool, entry: string)
    requires Inv(m)
    ensures
      var r := if Admits(m.state, key, admin) then
          Monitor(Enter(m.state, key, entry), m.calls + 1, m.trail + [Logged(entry)],
                  m.admins + (if admin then 1 else 0), m.grantees + (if admin then 0 else 1))
        else m.(state := m.state.(suppressed := m.state.suppressed + 1), calls := m.calls + 1);
      Inv(r)
  {
    if Admits(m.state, key, admin) {
      SumBump(m.state.perIdentity, key);
      TrailSnoc(m.trail, Logged(entry));
      RingIsLast(Entries(m.trail), entry);
    }
  }

  lemma ObserveKeeps(m: Monitor, call: Call)
    requires Inv(m)
    ensures Inv(Observe(m, call))
  {
    match call
    case Flush =>
      if m.state.suppressed > 0 {
        TrailSnoc(m.trail, Throttled(m.state.suppressed));
      } else {
        assert m.trail + [] == m.trail;
      }
    case LogFor(identity, admin, entry, now) =>
      RollKeeps(m, now);
      EnterKeeps(Rolled(m, now), Lower(identity), admin, entry);
      assert m.trail + (RollLines(m.state, now) + [Logged(entry)]) ==
        m.trail + RollLines(m.state, now) + [Logged(entry)];
      if !Rolls(m.state, now) {
        assert m.trail + RollLines(m.state, now) == m.trail;
      }
  }

  lemma {:induction false} RunKeeps(m: Monitor, calls: seq<Call>)
    requires Inv(m)
    ensures Inv(Run(m, calls))
    decreases |calls|
  {
    if calls != [] {
      RunKeeps(m, calls[..|calls| - 1]);
      ObserveKeeps(Run(m, calls[..|calls| - 1]), calls[|calls| - 1]);
    }
  }

  /** Over any calls and any clock, forwards or backwards: every call is logged,
      reported by a summary or still pending; the window count is the sum over
      identities, each within its quota; the ring is the last entries logged. */
  lemma AuditAccounting(start: nat, calls: seq<Call>)
    ensures
      var m := Run(Started(start), calls);
      && m.calls == |Entries(m.trail)| + Reported(m.trail) + m.state.suppressed
      && m.state.count == Sum(m.state.perIdentity) <= MAX_PER_WINDOW + ADMIN_RESERVE
      && (forall k :: k in m.state.perIdentity ==> m.state.perIdentity[k] <= MAX_PER_IDENTITY)
      && m.state.recent == Last(Entries(m.trail), RING_CAP)
  {
    RunKeeps(Started(start), calls);
  }

  lemma RollLogsNothing(m: Monitor, now: nat)
    ensures Entries(Rolled(m, now).trail) == Entries(m.trail)
    ensures Rolled(m, now).trail == m.trail + RollLines(m.state, now)
  {
    if Rolls(m.state, now) && m.state.suppressed > 0 {
      TrailSnoc(m.trail, Throttled(m.state.suppressed));
    } else {
      assert m.trail + [] == m.trail;
    }
  }

  /** An entry is logged exactly when a new window starts, or its identity is
      under its quota and the window's entries, admins' and grantees' together,
      are under the caller's limit. */
  lemma LoggedExactly(start: nat, calls: seq<Call>, identity: string, admin: bool, entry: string, now: nat)
    ensures
      var m := Run(Started(start), calls);
      Entries(Observe(m, LogFor(identity, admin, entry, now)).trail) ==
        if now < m.state.windowStart || now >= m.state.windowStart + 60
          || (Own(m.state, Lower(identity)) < 100 && m.admins + m.grantees < (if admin then 700 else 600))
        then Entries(m.trail) + [entry] else Entries(m.trail)
  {
    RunKeeps(Started(start), calls);
    var m := Run(Started(start), calls);
    var mid := Rolled(m, now);
    RollKeeps(m, now);
    RollLogsNothing(m, now);
    TrailSnoc(mid.trail, Logged(entry));
    var after := Observe(m, LogFor(identity, admin, entry, now));
    if Admits(mid.state, Lower(identity), admin) {
      assert after.trail == mid.trail + [Logged(entry)];
    } else {
      assert after.trail == mid.trail;
    }
  }

  /** No grantee can hide an admin's action: an admin within its own quota is
      logged while fewer than the reserve of admin entries are in the window,
      whatever anybody else logged before. */
  lemma AdminIsLogged(start: nat, calls: seq<Call>, identity: string, entry: string, now: nat)
    requires
      var m := Run(Started(start), calls);
      || now < m.state.windowStart || now >= m.state.windowStart + 60
      || (Own(m.state, Lower(identity)) < 100 && m.admins < 100)
    ensures
      var m := Run(Started(start), calls);
      Entries(Observe(m, LogFor(identity, true, entry, now)).trail) == Entries(m.trail) + [entry]
  {
    RunKeeps(Started(start), calls);
    LoggedExactly(start, calls, identity, true, entry, now);
  }

  /** A window is that of the call that began it: a call a minute or more after its
      start, or before it, begins another, which counts that call alone. */
  lemma WindowsExactly(m: Monitor, identity: string, admin: bool, entry: string, now: nat)
    requires Inv(m)
    ensures
      var after := Observe(m, LogFor(identity, admin, entry, now)).state;
      if now < m.state.windowStart || now >= m.state.windowStart + 60
      then after.windowStart == now && after.count == 1 && after.suppressed == 0
           && after.perIdentity == map[Lower(identity) := 1]
      else after.windowStart == m.state.windowStart && after.count + after.suppressed
             == m.state.count + m.state.suppressed + 1
  {
  }
}
