/** What the group actions of a migration remove and mark, said of tags and kinds
    alone, and how every event that is gone went. */
module GroupLaws {
  import opened Text
  import opened Events
  import opened EventLists
  import opened Moderation
  import opened ModerationLaws
  import opened GroupActions
  import opened Traces

  // ----- what an action removes -----

  ghost predicate NamesId(e: Event, id: string) {
    exists i :: 0 <= i < |e.tags| && |e.tags[i]| >= 2 && e.tags[i][0] == "e" && EqIgnoreCase(e.tags[i][1], id)
  }

  /** A kind:9005 reaches an event it names by full id, if both are of one group:
      no deletion request, no relay metadata, no membership notice. */
  ghost predicate DeletesEvent(a: Event, x: Event) {
    && NamesId(a, x.id) && (exists group :: OfGroup(a, group) && OfGroup(x, group))
    && x.kind != 5 && x.kind != 44_100 && x.kind != 44_101 && !(39_000 <= x.kind <= 39_005)
  }

  /** A kind:9008 reaches whatever is tied to its group, by any `h` tag or, for
      relay metadata, any `d` tag, up to its own time. */
  ghost predicate PurgesEvent(a: Event, x: Event) {
    && x.createdAt <= a.createdAt
    && exists group :: && OfGroup(a, group)
                       && (HasTag(x.tags, "h", group) || (39_000 <= x.kind <= 39_005 && HasTag(x.tags, "d", group)))
  }

  ghost predicate GoesBy(a: Event, x: Event) {
    if a.kind == 9005 then DeletesEvent(a, x) else PurgesEvent(a, x)
  }

  /** What is left are the events the action does not reach. */
  ghost predicate LeavesUnreached(stored: seq<Event>, a: Event, after: seq<Event>) {
    forall x :: x in stored ==> (x in after <==> !GoesBy(a, x))
  }

  /** What is left are the events that are no create tagged with the group. */
  ghost predicate LeavesOthers(stored: seq<Event>, group: string, after: seq<Event>) {
    forall x :: x in stored ==> (x in after <==> !(x.kind == 9007 && HasTag(x.tags, "h", group)))
  }

  lemma DeletesExactly(a: Event, x: Event)
    ensures Reaches(a, x) <==> DeletesEvent(a, x)
  {
    GroupExactly(a);
    GroupExactly(x);
  }

  lemma PurgesExactly(a: Event, x: Event)
    ensures GroupId(a).Some? && InGroup(x, GroupId(a).value) && x.createdAt <= a.createdAt <==> PurgesEvent(a, x)
  {
    GroupExactly(a);
  }

  /** Of the stored events an action removes exactly those it reaches. */
  lemma RemovedExactly(stored: seq<Event>, a: Event, x: Event)
    requires UniqueIds(stored) && x in stored
    ensures x.id in RemovedBy(stored, a) <==> GoesBy(a, x)
    ensures x !in AfterAction(stored, a) <==> GoesBy(a, x)
  {
    var k :| 0 <= k < |stored| && stored[k] == x;
    DeletesExactly(a, x);
    PurgesExactly(a, x);
    if x.id in RemovedBy(stored, a) {
      RemovedIs(stored, a, x.id);
      var j :| 0 <= j < |stored| && stored[j].id == x.id && GoesBy(a, stored[j]);
      UniqueEvent(stored, stored[j], x);
    }
    if x in AfterAction(stored, a) {
      var j :| 0 <= j < |AfterAction(stored, a)| && AfterAction(stored, a)[j] == x;
    }
  }

  lemma RemovedIs(stored: seq<Event>, a: Event, id: string)
    requires id in RemovedBy(stored, a)
    ensures exists j :: 0 <= j < |stored| && stored[j].id == id && GoesBy(a, stored[j])
  {
    if a.kind == DELETE_EVENT {
      var j :| 0 <= j < |stored| && Reaches(a, stored[j]) && stored[j].id == id;
      DeletesExactly(a, stored[j]);
    } else {
      var j :| 0 <= j < |stored| && InGroup(stored[j], GroupId(a).value) && stored[j].createdAt <= a.createdAt
        && stored[j].id == id;
      PurgesExactly(a, stored[j]);
    }
  }

  /** A kind:9005 changes derived state if and only if it reaches group moderation
      or a role event. */
  predicate IsState(kind: nat) {
    || 9000 <= kind <= 9022
    || kind in {33_534, 13_534, 8000, 8001, 28_934, 28_936}
  }

  lemma ChangesExactly(stored: seq<Event>, a: Event)
    requires UniqueIds(stored) && a.kind == 9005
    ensures RemovesState(stored, DeletedBy(stored, a)) <==>
      exists x :: x in stored && IsState(x.kind) && DeletesEvent(a, x)
  {
    if RemovesState(stored, DeletedBy(stored, a)) {
      var i :| && 0 <= i < |stored| && stored[i].id in DeletedBy(stored, a)
               && (IsGroupKind(stored[i].kind) || IsRoleKind(stored[i].kind));
      RemovedExactly(stored, a, stored[i]);
    }
    if x :| x in stored && IsState(x.kind) && DeletesEvent(a, x) {
      RemovedExactly(stored, a, x);
      var i :| 0 <= i < |stored| && stored[i] == x;
    }
  }

  // ----- what an action marks -----

  /** A target matches an id it is an even-length prefix of, whatever the case. */
  ghost predicate Matches(target: string, id: string) {
    && 2 <= |target| <= |id| && |target| % 2 == 0
    && forall i :: 0 <= i < |target| ==> SameLetter(target[i], id[i])
  }

  /** The earlier event is found first, of two of one second the one with the
      smaller id. */
  predicate Sooner(a: Event, b: Event) {
    a.createdAt < b.createdAt || (a.createdAt == b.createdAt && LexLess(a.id, b.id))
  }

  lemma MatchesExactly(target: string, id: string)
    ensures Prefixes(target, id) <==> Matches(target, id)
  {
    if 0 < |target| <= |id| {
      EqIgnoreCaseExactly(target, id[..|target|]);
    }
  }

  /** A lookup finds the first of the matching events. */
  lemma FindsFirst(stored: seq<Event>, target: string, x: Event)
    requires WellFormed(stored) && x in stored
    ensures LookUp(stored, target) == Some(x) <==>
      Matches(target, x.id) && forall y :: y in stored && Matches(target, y.id) && y != x ==> Sooner(x, y)
  {
    forall y: Event ensures Prefixes(target, y.id) <==> Matches(target, y.id) {
      MatchesExactly(target, y.id);
    }
    forall y, z | y in stored && z in stored ensures Sooner(y, z) <==> Older(y, z) {
      var i :| 0 <= i < |stored| && stored[i] == y;
      var j :| 0 <= j < |stored| && stored[j] == z;
    }
    if Matches(target, x.id) {
      LookUpIsOldest(stored, target, x);
      var found := LookUp(stored, target).value;
      forall y | y in stored && Matches(target, y.id) && y != found ensures Sooner(found, y) {
        LookUpIsOldest(stored, target, y);
        OneIsSooner(stored, found, y);
      }
      if found != x {
        NotBoth(found, x);
      }
    }
  }

  lemma OneIsSooner(stored: seq<Event>, a: Event, b: Event)
    requires UniqueIds(stored) && a in stored && b in stored && a != b
    ensures Sooner(a, b) || Sooner(b, a)
  {
    if a.id == b.id {
      UniqueEvent(stored, a, b);
    }
    LexTotal(a.id, b.id);
  }

  lemma NotBoth(a: Event, b: Event)
    ensures !(Sooner(a, b) && Sooner(b, a))
  {
    LexTotal(a.id, b.id);
  }

  /** A kind:9005 marks its own group if and only if the lookup of one of its
      targets finds a create of that group. */
  lemma MarksExactly(stored: seq<Event>, a: Event, group: string)
    ensures group in Uncreates(stored, a) <==>
      && a.kind == 9005 && OfGroup(a, group)
      && exists i, c :: && 0 <= i < |a.tags| && |a.tags[i]| >= 2 && a.tags[i][0] == "e"
                        && LookUp(stored, a.tags[i][1]) == Some(c) && c.kind == 9007 && OfGroup(c, group)
  {
    GroupExactly(a);
    if group in Uncreates(stored, a) {
      var i :| 0 <= i < |a.tags| && FindsAt(stored, a, i);
      var c := LookUp(stored, a.tags[i][1]).value;
      GroupExactly(c);
      assert LookUp(stored, a.tags[i][1]) == Some(c);
    }
    if a.kind == 9005 && OfGroup(a, group) {
      if i, c :| && 0 <= i < |a.tags| && |a.tags[i]| >= 2 && a.tags[i][0] == "e"
                 && LookUp(stored, a.tags[i][1]) == Some(c) && c.kind == 9007 && OfGroup(c, group) {
        GroupExactly(c);
        assert FindsAt(stored, a, i);
      }
    }
  }

  // ----- how an event went -----

  /** An event went by an authorised action that reaches it, or as a create tagged
      with a marked group that was swept. */
  ghost predicate Went(t: Trace, x: Event) {
    match t
    case Begin(_) => false
    case Acted(before, a) => Went(before, x) || (x in Now(before) && GoesBy(a, x))
    case Swept(before, group) =>
      || Went(before, x)
      || (x in Now(before) && group in Uncreated(before) && x.kind == 9007 && HasTag(x.tags, "h", group))
    case Passed(before) => Went(before, x)
  }

  lemma {:induction false} WentExactly<G>(w: World<G>, t: Trace, x: Event)
    requires Lawful(w, t)
    ensures TakenOut(t, x) <==> Went(t, x)
  {
    if !t.Begin? {
      WentExactly(w, t.before, x);
      NowUnique(w, t.before);
      if t.Acted? && x in Now(t.before) {
        RemovedExactly(Now(t.before), t.action, x);
      }
    }
  }

  /** Nothing stored is gone but by what reaches it, and what was reached is gone. */
  lemma GoneExactly<G>(w: World<G>, t: Trace, x: Event)
    requires Lawful(w, t) && x in Origin(t)
    ensures x !in Now(t) <==> Went(t, x)
  {
    RemovalsAccounted(w, t, x);
    WentExactly(w, t, x);
  }
}
