/** What the two group actions, a kind:9005 and a kind:9008, do to the database,
    and how a migration looks up the create a kind:9005 deletes. */
module GroupActions {
  import opened Text
  import opened Events
  import opened EventLists
  import opened Moderation

  // ----- the database -----

  /** The stored events a replay reads. */
  function Moderations(stored: seq<Event>): (r: seq<Event>)
    ensures forall e :: e in r <==> e in stored && IsGroupKind(e.kind)
  {
    if stored == [] then []
    else
      var rest := Moderations(stored[..|stored| - 1]);
      var last := stored[|stored| - 1];
      assert stored == stored[..|stored| - 1] + [last];
      if IsGroupKind(last.kind) then rest + [last] else rest
  }

  lemma ModerationsSnoc(stored: seq<Event>, e: Event)
    ensures Moderations(stored + [e]) == if IsGroupKind(e.kind) then Moderations(stored) + [e] else Moderations(stored)
  {
    assert (stored + [e])[..|stored|] == stored;
  }

  lemma {:induction false} ModerationsWithout(stored: seq<Event>, gone: set<string>)
    ensures Moderations(Without(stored, gone)) == Without(Moderations(stored), gone)
    decreases |stored|
  {
    if stored != [] {
      var prefix, last := stored[..|stored| - 1], stored[|stored| - 1];
      ModerationsWithout(prefix, gone);
      if IsGroupKind(last.kind) {
        WithoutSnoc(Moderations(prefix), last, gone);
      }
      if last.id !in gone {
        ModerationsSnoc(Without(prefix, gone), last);
      }
    }
  }

  lemma ModerationsShrink(stored: seq<Event>)
    ensures Ids(Moderations(stored)) <= Ids(stored)
  {
    var r := Moderations(stored);
    forall i | 0 <= i < |r| ensures r[i].id in Ids(stored) {
      var j :| 0 <= j < |stored| && stored[j] == r[i];
    }
  }

  lemma {:induction false} ModerationsUnique(stored: seq<Event>)
    requires UniqueIds(stored)
    ensures UniqueIds(Moderations(stored))
    decreases |stored|
  {
    if stored != [] {
      UniqueLast(stored);
      ModerationsUnique(stored[..|stored| - 1]);
      ModerationsShrink(stored[..|stored| - 1]);
      if IsGroupKind(stored[|stored| - 1].kind) {
        UniqueSnoc(Moderations(stored[..|stored| - 1]), stored[|stored| - 1]);
      }
    }
  }

  // ----- the actions -----

  /** An `e` tag naming a full id. */
  predicate Names(tags: seq<seq<string>>, id: string) {
    exists i :: 0 <= i < |tags| && |tags[i]| >= 2 && tags[i][0] == "e" && EqIgnoreCase(tags[i][1], id)
  }

  /** What a kind:9005 reaches: the named events of its own group, but neither
      relay metadata nor deletion requests. */
  predicate Reaches(e: Event, x: Event) {
    && GroupId(e).Some? && Names(e.tags, x.id)
    && GroupIdAny(x) == GroupId(e) && x.kind != DELETION_KIND && !IsMetaKind(x.kind)
  }

  function DeletedBy(stored: seq<Event>, e: Event): set<string> {
    set i | 0 <= i < |stored| && Reaches(e, stored[i]) :: stored[i].id
  }

  /** What a kind:9008 purges: its group's history, up to its own time. */
  function PurgedBy(stored: seq<Event>, e: Event): set<string> {
    if GroupId(e).None? then {}
    else
      set i | 0 <= i < |stored| && InGroup(stored[i], GroupId(e).value) && stored[i].createdAt <= e.createdAt
        :: stored[i].id
  }

  function RemovedBy(stored: seq<Event>, e: Event): set<string> {
    if e.kind == DELETE_EVENT then DeletedBy(stored, e) else PurgedBy(stored, e)
  }

  /** What is stored once an action was performed. */
  function AfterAction(stored: seq<Event>, e: Event): seq<Event> {
    Without(stored, RemovedBy(stored, e))
  }

  /** What the database reports as a change of derived state. */
  predicate RemovesState(stored: seq<Event>, gone: set<string>) {
    exists i :: 0 <= i < |stored| && stored[i].id in gone && (IsGroupKind(stored[i].kind) || IsRoleKind(stored[i].kind))
  }

  /** A deletion that removes no state event leaves what is replayed. */
  lemma InertDeletion(stored: seq<Event>, gone: set<string>)
    requires !RemovesState(stored, gone)
    ensures Moderations(Without(stored, gone)) == Moderations(stored)
  {
    var r := Moderations(stored);
    forall i | 0 <= i < |r| ensures r[i].id !in gone {
      var j :| 0 <= j < |stored| && stored[j] == r[i];
    }
    assert Ids(r) !! gone;
    WithoutNothing(r, gone);
    ModerationsWithout(stored, gone);
  }

  // ----- looking up the create -----

  const ID_CHARS: nat := 64

  /** Ids as the database keys them: 32 bytes in lowercase hex, each once. */
  ghost predicate WellFormed(stored: seq<Event>) {
    && UniqueIds(stored)
    && forall i :: 0 <= i < |stored| ==> |stored[i].id| == ID_CHARS && Lower(stored[i].id) == stored[i].id
  }

  /** An `ids` filter entry matches the ids it is an even-length prefix of. */
  predicate Prefixes(target: string, id: string) {
    0 < |target| <= |id| && |target| % 2 == 0 && EqIgnoreCase(target, id[..|target|])
  }

  predicate Older(a: Event, b: Event) {
    a.createdAt < b.createdAt || (a.createdAt == b.createdAt && LexLess(Lower(a.id), Lower(b.id)))
  }

  /** A query for one id entry, oldest first, for one event. */
  function LookUp(stored: seq<Event>, target: string): (found: Option<Event>)
    ensures found.Some? ==> found.value in stored && Prefixes(target, found.value.id)
    ensures found.None? ==> forall i :: 0 <= i < |stored| ==> !Prefixes(target, stored[i].id)
  {
    if stored == [] then None
    else
      var best, last := LookUp(stored[..|stored| - 1], target), stored[|stored| - 1];
      assert stored == stored[..|stored| - 1] + [last];
      if Prefixes(target, last.id) && (best.None? || Older(last, best.value)) then Some(last) else best
  }

  lemma OlderIsTransitive(a: Event, b: Event, c: Event)
    requires Older(a, b) && Older(b, c)
    ensures Older(a, c)
  {
    if a.createdAt == b.createdAt == c.createdAt {
      LexTransitive(Lower(a.id), Lower(b.id), Lower(c.id));
    }
  }

  lemma NotOlderThanItself(a: Event)
    ensures !Older(a, a)
  {
    LexTotal(Lower(a.id), Lower(a.id));
  }

  /** The event found is one no matching event is older than. */
  lemma {:induction false} LookUpIsOldest(stored: seq<Event>, target: string, e: Event)
    requires e in stored && Prefixes(target, e.id)
    ensures LookUp(stored, target).Some? && !Older(e, LookUp(stored, target).value)
    decreases |stored|
  {
    var prefix, last := stored[..|stored| - 1], stored[|stored| - 1];
    assert stored == prefix + [last];
    NotOlderThanItself(last);
    if e in prefix {
      LookUpIsOldest(prefix, target, e);
      var best := LookUp(prefix, target).value;
      if Older(e, last) && Older(last, best) {
        OlderIsTransitive(e, last, best);
      }
    }
  }

  predicate OwnCreate(e: Event, found: Option<Event>) {
    found.Some? && found.value.kind == CREATE_GROUP && GroupId(found.value).Some? && GroupId(found.value) == GroupId(e)
  }

  /** Whether the `i`th tag looks up a create of the action's own group. */
  predicate FindsAt(stored: seq<Event>, e: Event, i: nat) {
    i < |e.tags| && |e.tags[i]| >= 2 && e.tags[i][0] == "e" && OwnCreate(e, LookUp(stored, e.tags[i][1]))
  }

  predicate FindsCreate(stored: seq<Event>, e: Event) {
    exists i :: 0 <= i < |e.tags| && FindsAt(stored, e, i)
  }

  /** The group a kind:9005 marks as uncreated. */
  function Uncreates(stored: seq<Event>, e: Event): set<string> {
    if e.kind == DELETE_EVENT && GroupId(e).Some? && FindsCreate(stored, e) then {GroupId(e).value} else {}
  }

  /** Whether a kind:9005 does delete a create of its group. */
  predicate DeletesCreate(stored: seq<Event>, e: Event) {
    exists i :: 0 <= i < |stored| && stored[i].kind == CREATE_GROUP && Reaches(e, stored[i])
  }

  /** A create was looked up by a shortened id, and none is named in full. */
  predicate PrefixOnly(stored: seq<Event>, e: Event) {
    && (exists i :: 0 <= i < |e.tags| && FindsAt(stored, e, i) && |e.tags[i][1]| < ID_CHARS)
    && !DeletesCreate(stored, e)
  }

  lemma FullIdMatches(stored: seq<Event>, target: string, x: Event)
    requires WellFormed(stored) && x in stored && |target| == ID_CHARS
    ensures Prefixes(target, x.id) <==> EqIgnoreCase(target, x.id)
  {
    var i :| 0 <= i < |stored| && stored[i] == x;
    assert x.id[..|target|] == x.id;
  }

  /** A full id finds the event it names. */
  lemma FullIdFinds(stored: seq<Event>, target: string, c: Event)
    requires WellFormed(stored) && c in stored && EqIgnoreCase(target, c.id)
    ensures LookUp(stored, target) == Some(c)
  {
    var k :| 0 <= k < |stored| && stored[k] == c;
    assert |Lower(target)| == |Lower(c.id)|;
    FullIdMatches(stored, target, c);
    LookUpIsOldest(stored, target, c);
    var found := LookUp(stored, target).value;
    FullIdMatches(stored, target, found);
    var j :| 0 <= j < |stored| && stored[j] == found;
    assert Lower(found.id) == Lower(c.id);
    UniqueEvent(stored, found, c);
  }

  lemma FullTargetDeletes(stored: seq<Event>, e: Event, i: nat)
    requires WellFormed(stored) && FindsAt(stored, e, i) && |e.tags[i][1]| >= ID_CHARS
    ensures DeletesCreate(stored, e)
  {
    var target := e.tags[i][1];
    var c := LookUp(stored, target).value;
    var k :| 0 <= k < |stored| && stored[k] == c;
    FullIdMatches(stored, target, c);
    assert Names(e.tags, c.id);
    assert Reaches(e, stored[k]);
  }

  /** A deleted create is always looked up; and a group is marked exactly for a
      deleted create, unless the create was only looked up by a shortened id. */
  lemma UncreatesExactly(stored: seq<Event>, e: Event)
    requires WellFormed(stored) && e.kind == DELETE_EVENT && GroupId(e).Some?
    ensures DeletesCreate(stored, e) ==> FindsCreate(stored, e)
    ensures (FindsCreate(stored, e) <==> DeletesCreate(stored, e)) <==> !PrefixOnly(stored, e)
  {
    if DeletesCreate(stored, e) {
      var k :| 0 <= k < |stored| && stored[k].kind == CREATE_GROUP && Reaches(e, stored[k]);
      var i :| 0 <= i < |e.tags| && |e.tags[i]| >= 2 && e.tags[i][0] == "e" && EqIgnoreCase(e.tags[i][1], stored[k].id);
      FullIdFinds(stored, e.tags[i][1], stored[k]);
      assert FindsAt(stored, e, i);
    } else if FindsCreate(stored, e) {
      var i :| 0 <= i < |e.tags| && FindsAt(stored, e, i);
      if |e.tags[i][1]| >= ID_CHARS {
        FullTargetDeletes(stored, e, i);
      }
    }
  }
}
